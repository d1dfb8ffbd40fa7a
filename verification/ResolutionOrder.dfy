// When the orders in which maps yield outputs matter for a whole call of
// ResolveInputs (core/pipeline.go), over all of a block's bare references.
module ResolutionOrder {
  import opened Digraphs
  import opened Pipelines
  import opened InputResolution
  import opened MatchingOrder

  // ---- One bare reference -------------------------------------------------------------

  /** The inputs that fit some output not yet claimed. */
  ghost function Wanted(inputs: map<string, string>, claimed: set<(Id, string)>, id: Id,
                        outputs: map<string, string>): set<string>
  {
    set n | n in inputs && exists o :: o in outputs && (id, o) !in claimed && TypesCompatible(inputs[n], outputs[o])
  }

  /** What is claimed beyond m is what the new bindings take. */
  ghost predicate ClaimsBound(m: Matching, m': Matching) {
    && (forall n :: n in m.bound ==> n in m'.bound && m'.bound[n] == m.bound[n])
    && (forall c :: c in m'.claimed <==> c in m.claimed || BoundTo(m, m', c))
  }

  ghost predicate BoundTo(m: Matching, m': Matching, c: (Id, string)) {
    exists n :: n in m'.bound && n !in m.bound && (m'.bound[n].source, m'.bound[n].output) == c
  }

  lemma ClaimsBoundTransitive(a: Matching, b: Matching, c: Matching)
    requires ClaimsBound(a, b) && ClaimsBound(b, c)
    ensures ClaimsBound(a, c)
  {
    forall x ensures x in c.claimed <==> x in a.claimed || BoundTo(a, c, x) {
      if BoundTo(a, b, x) {
        var n :| n in b.bound && n !in a.bound && (b.bound[n].source, b.bound[n].output) == x;
        assert c.bound[n] == b.bound[n];
      }
      if BoundTo(b, c, x) {
        var n :| n in c.bound && n !in b.bound && (c.bound[n].source, c.bound[n].output) == x;
        assert n !in a.bound;
      }
      if BoundTo(a, c, x) {
        var n :| n in c.bound && n !in a.bound && (c.bound[n].source, c.bound[n].output) == x;
        assert n in b.bound ==> BoundTo(a, b, x);
        assert n !in b.bound ==> BoundTo(b, c, x);
      }
    }
  }

  /** Once bound alike, claimed alike. */
  lemma BoundAlike(m: Matching, a: Matching, b: Matching)
    requires ClaimsBound(m, a) && ClaimsBound(m, b) && a.bound == b.bound
    ensures a == b
  {
    forall c ensures c in a.claimed <==> c in b.claimed {
      assert BoundTo(m, a, c) <==> BoundTo(m, b, c);
    }
  }

  lemma StepFills(inputs: map<string, string>, m: Matching, id: Id, o: string, t: string, m': Matching)
    requires MatchStep(inputs, m, id, o, t, Ok(m'))
    ensures ClaimsBound(m, m') && ((id, o) !in m.claimed ==> Fits(inputs, m'.bound.Keys, t) == {})
    ensures forall n :: n in m'.bound && n !in m.bound ==>
            (id, o) !in m.claimed && n in inputs && TypesCompatible(inputs[n], t)
    ensures m.claimed <= m'.claimed <= m.claimed + {(id, o)}
  {
    var c := Candidates(inputs, m, t);
    assert c == Fits(inputs, m.bound.Keys, t);
    if (id, o) !in m.claimed && c != {} {
      var n :| n in c && m' == Bind(m, n, id, o, t);
      forall x | x in c ensures x == n { Singleton(c, x, n); }
      assert Fits(inputs, m'.bound.Keys, t) <= c - {n};
      assert BoundTo(m, m', (id, o));
    }
  }

  ghost predicate Filled(inputs: map<string, string>, m: Matching, id: Id, outputs: map<string, string>,
                         seen: seq<string>, m': Matching)
  {
    && ClaimsBound(m, m')
    && (forall o :: o in seen && o in outputs && (id, o) !in m.claimed ==>
          Fits(inputs, m'.bound.Keys, outputs[o]) == {})
    && (forall n :: n in m'.bound && n !in m.bound ==> n in Wanted(inputs, m.claimed, id, outputs))
    && (forall c :: c in m'.claimed && c !in m.claimed ==> c.0 == id && c.1 in seen)
  }

  lemma FilledStep(inputs: map<string, string>, m: Matching, id: Id, outputs: map<string, string>, seen: seq<string>,
                   mid: Matching, o: string, m': Matching)
    requires Filled(inputs, m, id, outputs, seen, mid) && o in outputs &&
             MatchStep(inputs, mid, id, o, outputs[o], Ok(m'))
    ensures Filled(inputs, m, id, outputs, seen + [o], m')
  {
    StepFills(inputs, mid, id, o, outputs[o], m');
    ClaimsBoundTransitive(m, mid, m');
    forall x | x in seen + [o] && x in outputs && (id, x) !in m.claimed
      ensures Fits(inputs, m'.bound.Keys, outputs[x]) == {}
    {
      if x in seen { assert Fits(inputs, m'.bound.Keys, outputs[x]) <= Fits(inputs, mid.bound.Keys, outputs[x]); }
      if (id, o) in mid.claimed && x == o { assert x in seen; }
    }
    forall n | n in m'.bound && n !in m.bound ensures n in Wanted(inputs, m.claimed, id, outputs) {
      if n !in mid.bound { assert (id, o) !in m.claimed; }
    }
  }

  lemma {:induction false} PassFills(inputs: map<string, string>, m: Matching, id: Id, outputs: map<string, string>,
                                     order: seq<string>, m': Matching)
    requires MatchPass(inputs, m, id, outputs, order, Ok(m'))
    ensures Filled(inputs, m, id, outputs, order, m')
  {
    if order != [] {
      var k := |order| - 1;
      var mid: Result<Matching> :| MatchPass(inputs, m, id, outputs, order[..k], mid) &&
        if mid.Err? then false else MatchStep(inputs, mid.value, id, order[k], outputs[order[k]], Ok(m'));
      assert mid == Ok(mid.value);
      PassFills(inputs, m, id, outputs, order[..k], mid.value);
      FilledStep(inputs, m, id, outputs, order[..k], mid.value, order[k], m');
      assert order == order[..k] + [order[k]];
    }
  }

  /** Whatever the order, a bare reference that is matched binds the same inputs:
      all those that fit an unclaimed output. */
  lemma MatchBindsWanted(inputs: map<string, string>, m: Matching, id: Id, outputs: map<string, string>, m': Matching)
    requires Matches(inputs, m, id, outputs, Ok(m'))
    ensures m'.bound.Keys == m.bound.Keys + Wanted(inputs, m.claimed, id, outputs)
    ensures ClaimsBound(m, m') && forall c :: c in m'.claimed && c !in m.claimed ==> c.0 == id && c.1 in outputs
  {
    var order :| Enumerates(order, outputs.Keys) && MatchPass(inputs, m, id, outputs, order, Ok(m'));
    PassFills(inputs, m, id, outputs, order, m');
    forall n | n in Wanted(inputs, m.claimed, id, outputs) ensures n in m'.bound {
      var o :| o in outputs && (id, o) !in m.claimed && TypesCompatible(inputs[n], outputs[o]);
      assert o in order;
      assert n !in Fits(inputs, m'.bound.Keys, outputs[o]);
    }
  }

  lemma MatchesTotal(inputs: map<string, string>, m: Matching, id: Id, outputs: map<string, string>)
    returns (r: Result<Matching>)
    ensures Matches(inputs, m, id, outputs, r)
  {
    var order := EnumerationExists(outputs.Keys);
    r := ContinuePass(inputs, m, id, outputs, [], order, Ok(m));
    assert [] + order == order;
  }

  // ---- All bare references ------------------------------------------------------------------

  /** The inputs bound once the references have been matched, in whatever order. */
  ghost function Occupied(deps: Manifests, inputs: map<string, string>, start: Matching,
                          refs: seq<InputRef>): set<string>
  {
    if refs == [] then start.bound.Keys
    else
      var last := refs[|refs| - 1];
      var before := Occupied(deps, inputs, start, refs[..|refs| - 1]);
      if last.Bare? && last.id in deps then before + Wanted(inputs, start.claimed, last.id, deps[last.id].outputs)
        else before
  }

  /** A matching with these inputs bound, to whatever outputs. */
  function Idle(taken: set<string>, claimed: set<(Id, string)>): Matching {
    Matching(map n | n in taken :: Binding(NIL, "", ""), claimed)
  }

  /** What reference j meets. */
  ghost function Facing(deps: Manifests, inputs: map<string, string>, start: Matching, refs: seq<InputRef>,
                        j: nat): Matching
    requires j < |refs|
  {
    Idle(Occupied(deps, inputs, start, refs[..j]), start.claimed)
  }

  /** Reference j names an unknown block, or every order of its outputs fails. */
  ghost predicate FailsAt(deps: Manifests, inputs: map<string, string>, start: Matching, refs: seq<InputRef>, j: nat) {
    && j < |refs| && refs[j].Bare?
    && (refs[j].id !in deps || Stuck(inputs, Facing(deps, inputs, start, refs, j), refs[j].id,
          deps[refs[j].id].outputs))
  }

  /** Reference j is matched alike in every order of its outputs. */
  ghost predicate FitsAt(deps: Manifests, inputs: map<string, string>, start: Matching, refs: seq<InputRef>, j: nat)
    requires j < |refs|
  {
    refs[j].Bare? ==>
      refs[j].id in deps && OneToOne(inputs, Facing(deps, inputs, start, refs, j), refs[j].id, deps[refs[j].id].outputs)
  }

  /** What is known of every successful matching of the references. */
  ghost predicate Reached(deps: Manifests, inputs: map<string, string>, start: Matching, refs: seq<InputRef>,
                          m: Matching)
  {
    && m.bound.Keys == Occupied(deps, inputs, start, refs) && ClaimsBound(start, m)
    && (forall c :: c in m.claimed && c !in start.claimed ==> Bare(c.0) in refs)
    && (forall id :: Bare(id) in refs && id in deps ==>
          Wanted(inputs, start.claimed, id, deps[id].outputs) <= m.bound.Keys)
  }

  /** The reference has been matched before, or none of its outputs has been. */
  lemma SameWanted(deps: Manifests, inputs: map<string, string>, start: Matching, refs: seq<InputRef>, m: Matching,
                   id: Id)
    requires Reached(deps, inputs, start, refs, m) && id in deps
    ensures m.bound.Keys + Wanted(inputs, m.claimed, id, deps[id].outputs) ==
            m.bound.Keys + Wanted(inputs, start.claimed, id, deps[id].outputs)
  {
    var outputs := deps[id].outputs;
    if Bare(id) in refs {
      assert Wanted(inputs, m.claimed, id, outputs) <= Wanted(inputs, start.claimed, id, outputs);
    } else {
      assert forall o :: (id, o) in m.claimed <==> (id, o) in start.claimed;
      assert Wanted(inputs, m.claimed, id, outputs) == Wanted(inputs, start.claimed, id, outputs);
    }
  }

  lemma {:induction false} LeftoverOfEmptied(inputs: map<string, string>, taken: set<string>,
                                             outputs: map<string, string>, left: set<string>)
    requires left <= outputs.Keys && forall o :: o in left ==> Fits(inputs, taken, outputs[o]) == {}
    ensures Leftover(inputs, taken, outputs, left) == {}
    decreases left
  {
    if left != {} {
      var o := Forced(inputs, taken, outputs, left).value;
      assert taken + Fits(inputs, taken, outputs[o]) == taken;
      LeftoverOfEmptied(inputs, taken, outputs, left - {o});
    }
  }

  /** Which outputs earlier references took makes no difference to this one. */
  lemma SameConditions(deps: Manifests, inputs: map<string, string>, start: Matching, refs: seq<InputRef>, m: Matching,
                       id: Id)
    requires Reached(deps, inputs, start, refs, m) && id in deps
    ensures var idle := Idle(Occupied(deps, inputs, start, refs), start.claimed);
            var outputs := deps[id].outputs;
            && (OneToOne(inputs, m, id, outputs) <==> OneToOne(inputs, idle, id, outputs))
            && (Stuck(inputs, m, id, outputs) <==> Stuck(inputs, idle, id, outputs))
  {
    var idle := Idle(Occupied(deps, inputs, start, refs), start.claimed);
    var outputs := deps[id].outputs;
    assert idle.bound.Keys == m.bound.Keys;
    if Bare(id) in refs {
      forall o | o in outputs && (id, o) !in start.claimed ensures Fits(inputs, m.bound.Keys, outputs[o]) == {} {
        forall n | n in inputs && TypesCompatible(inputs[n], outputs[o]) ensures n in m.bound {
          assert n in Wanted(inputs, start.claimed, id, outputs);
        }
      }
      assert start.claimed <= m.claimed;
      EmptiedFits(inputs, m, id, outputs);
      EmptiedFits(inputs, idle, id, outputs);
    } else {
      assert forall o :: (id, o) in m.claimed <==> (id, o) in start.claimed;
      SameFits(inputs, m, idle, id, outputs);
    }
  }

  lemma EmptiedFits(inputs: map<string, string>, m: Matching, id: Id, outputs: map<string, string>)
    requires forall o :: o in outputs && (id, o) !in m.claimed ==> Fits(inputs, m.bound.Keys, outputs[o]) == {}
    ensures OneToOne(inputs, m, id, outputs) && !Stuck(inputs, m, id, outputs)
  {
    forall o | o in outputs && (id, o) !in m.claimed ensures Candidates(inputs, m, outputs[o]) == {} {
      assert Candidates(inputs, m, outputs[o]) == Fits(inputs, m.bound.Keys, outputs[o]);
    }
    LeftoverOfEmptied(inputs, m.bound.Keys, outputs, Open(m, id, outputs));
  }

  lemma SameFits(inputs: map<string, string>, a: Matching, b: Matching, id: Id, outputs: map<string, string>)
    requires a.bound.Keys == b.bound.Keys && forall o :: (id, o) in a.claimed <==> (id, o) in b.claimed
    ensures OneToOne(inputs, a, id, outputs) <==> OneToOne(inputs, b, id, outputs)
    ensures Stuck(inputs, a, id, outputs) <==> Stuck(inputs, b, id, outputs)
  {
    assert Open(a, id, outputs) == Open(b, id, outputs);
    forall t ensures Candidates(inputs, a, t) == Candidates(inputs, b, t) {}
    assert forall o, n :: Takes(inputs, a, id, outputs, o, n) <==> Takes(inputs, b, id, outputs, o, n);
  }

  lemma ReachedStep(deps: Manifests, inputs: map<string, string>, start: Matching, refs: seq<InputRef>, mid: Matching,
                    last: InputRef, m: Matching)
    requires Reached(deps, inputs, start, refs, mid) && BareStep(deps, inputs, mid, last, Ok(m))
    ensures Reached(deps, inputs, start, refs + [last], m)
  {
    assert (refs + [last])[..|refs|] == refs;
    if last.Bare? {
      var id, outputs := last.id, deps[last.id].outputs;
      MatchBindsWanted(inputs, mid, id, outputs, m);
      SameWanted(deps, inputs, start, refs, mid, id);
      ClaimsBoundTransitive(start, mid, m);
      assert last == Bare(id) && Bare(id) in refs + [last];
      forall c | c in m.claimed && c !in start.claimed ensures Bare(c.0) in refs + [last] {
        if c in mid.claimed { assert Bare(c.0) in refs; }
      }
    }
  }

  lemma {:induction false} PassReaches(deps: Manifests, inputs: map<string, string>, start: Matching,
                                       refs: seq<InputRef>, m: Matching)
    requires BarePass(deps, inputs, start, refs, Ok(m))
    ensures Reached(deps, inputs, start, refs, m)
  {
    if refs != [] {
      var k := |refs| - 1;
      var mid: Result<Matching> :| BarePass(deps, inputs, start, refs[..k], mid) &&
        if mid.Err? then false else BareStep(deps, inputs, mid.value, refs[k], Ok(m));
      assert mid == Ok(mid.value);
      PassReaches(deps, inputs, start, refs[..k], mid.value);
      ReachedStep(deps, inputs, start, refs[..k], mid.value, refs[k], m);
      assert refs == refs[..k] + [refs[k]];
    }
  }

  // ---- Every order fails -----------------------------------------------------------------------

  ghost predicate BareFails(deps: Manifests, inputs: map<string, string>, start: Matching, refs: seq<InputRef>) {
    forall r :: BarePass(deps, inputs, start, refs, r) ==> r.Err?
  }

  lemma StepFailsIff(deps: Manifests, inputs: map<string, string>, start: Matching, refs: seq<InputRef>, j: nat,
                     mid: Matching)
    requires j < |refs| && Reached(deps, inputs, start, refs[..j], mid)
    ensures FailsAt(deps, inputs, start, refs, j) <==> forall r :: BareStep(deps, inputs, mid, refs[j], r) ==> r.Err?
  {
    if refs[j].Bare? && refs[j].id in deps {
      SameConditions(deps, inputs, start, refs[..j], mid, refs[j].id);
      AlwaysFailsIffStuck(inputs, mid, refs[j].id, deps[refs[j].id].outputs);
      assert forall r :: BareStep(deps, inputs, mid, refs[j], r) <==>
        Matches(inputs, mid, refs[j].id, deps[refs[j].id].outputs, r);
    } else if refs[j].Explicit? {
      assert BareStep(deps, inputs, mid, refs[j], Ok(mid));
    }
  }

  lemma PassThenStep(deps: Manifests, inputs: map<string, string>, start: Matching, refs: seq<InputRef>, mid: Matching,
                     r: Result<Matching>)
    requires refs != [] && BarePass(deps, inputs, start, refs[..|refs| - 1], Ok(mid))
    requires BareStep(deps, inputs, mid, refs[|refs| - 1], r)
    ensures BarePass(deps, inputs, start, refs, r)
  {
    BarePassNext(deps, inputs, start, refs, |refs| - 1, mid, r);
    assert refs[..|refs|] == refs;
  }

  /** No order gets through exactly when some reference names an unknown block or
      gets stuck on outputs that stay ambiguous. */
  lemma {:induction false} BareFailsIff(deps: Manifests, inputs: map<string, string>, start: Matching,
                                        refs: seq<InputRef>)
    ensures BareFails(deps, inputs, start, refs) <==> exists j :: FailsAt(deps, inputs, start, refs, j)
  {
    if refs == [] {
      assert BarePass(deps, inputs, start, refs, Ok(start));
    } else {
      var k := |refs| - 1;
      BareFailsIff(deps, inputs, start, refs[..k]);
      forall j: nat | j < k
        ensures FailsAt(deps, inputs, start, refs[..k], j) <==> FailsAt(deps, inputs, start, refs, j)
      {
        assert refs[..k][..j] == refs[..j];
      }
      LastFails(deps, inputs, start, refs);
      assert forall j :: FailsAt(deps, inputs, start, refs, j) ==> j == k || FailsAt(deps, inputs, start, refs[..k], j);
    }
  }

  lemma LastFails(deps: Manifests, inputs: map<string, string>, start: Matching, refs: seq<InputRef>)
    requires refs != []
    ensures BareFails(deps, inputs, start, refs) <==>
            BareFails(deps, inputs, start, refs[..|refs| - 1]) || FailsAt(deps, inputs, start, refs, |refs| - 1)
  {
    var k := |refs| - 1;
    if mid :| BarePass(deps, inputs, start, refs[..k], Ok(mid)) {
      PassReaches(deps, inputs, start, refs[..k], mid);
      StepFailsIff(deps, inputs, start, refs, k, mid);
      if r :| BareStep(deps, inputs, mid, refs[k], r) && r.Ok? {
        PassThenStep(deps, inputs, start, refs, mid, r);
      }
    }
    forall r | BarePass(deps, inputs, start, refs, r) && r.Ok?
      ensures !BareFails(deps, inputs, start, refs[..k]) && !FailsAt(deps, inputs, start, refs, k)
    {
      var mid: Result<Matching> :| BarePass(deps, inputs, start, refs[..k], mid) &&
        if mid.Err? then false else BareStep(deps, inputs, mid.value, refs[k], r);
      assert mid == Ok(mid.value);
      PassReaches(deps, inputs, start, refs[..k], mid.value);
      StepFailsIff(deps, inputs, start, refs, k, mid.value);
    }
  }

  // ---- Every order succeeds alike ------------------------------------------------------------------

  ghost predicate BareYields(deps: Manifests, inputs: map<string, string>, start: Matching, refs: seq<InputRef>,
                             m: Matching)
  {
    forall r :: BarePass(deps, inputs, start, refs, r) ==> r == Ok(m)
  }

  lemma BareStepTotal(deps: Manifests, inputs: map<string, string>, m: Matching, ref: InputRef)
    returns (r: Result<Matching>)
    ensures BareStep(deps, inputs, m, ref, r)
  {
    if ref.Explicit? {
      r := Ok(m);
    } else if ref.id !in deps {
      r := Err("");
    } else {
      r := MatchesTotal(inputs, m, ref.id, deps[ref.id].outputs);
    }
  }

  /** A pass of all but the last reference goes on. */
  lemma GoesOn(deps: Manifests, inputs: map<string, string>, start: Matching, refs: seq<InputRef>,
               mid: Result<Matching>) returns (r: Result<Matching>)
    requires refs != [] && BarePass(deps, inputs, start, refs[..|refs| - 1], mid)
    ensures BarePass(deps, inputs, start, refs, r)
    ensures if mid.Err? then r.Err? else BareStep(deps, inputs, mid.value, refs[|refs| - 1], r)
  {
    var k := |refs| - 1;
    if mid.Err? {
      BarePassFails(deps, inputs, start, refs[..k], [refs[k]], mid);
      assert refs[..k] + [refs[k]] == refs;
      r := mid;
    } else {
      r := BareStepTotal(deps, inputs, mid.value, refs[k]);
      PassThenStep(deps, inputs, start, refs, mid.value, r);
    }
  }

  lemma {:induction false} PassExists(deps: Manifests, inputs: map<string, string>, start: Matching,
                                      refs: seq<InputRef>) returns (r: Result<Matching>)
    ensures BarePass(deps, inputs, start, refs, r)
  {
    if refs == [] {
      r := Ok(start);
    } else {
      var mid := PassExists(deps, inputs, start, refs[..|refs| - 1]);
      r := GoesOn(deps, inputs, start, refs, mid);
    }
  }

  ghost predicate StepYields(deps: Manifests, inputs: map<string, string>, mid: Matching, ref: InputRef, m: Matching) {
    forall r :: BareStep(deps, inputs, mid, ref, r) ==> r == Ok(m)
  }

  lemma StepYieldsIff(deps: Manifests, inputs: map<string, string>, start: Matching, refs: seq<InputRef>, j: nat,
                      mid: Matching)
    requires j < |refs| && Reached(deps, inputs, start, refs[..j], mid)
    ensures FitsAt(deps, inputs, start, refs, j) <==> exists m :: StepYields(deps, inputs, mid, refs[j], m)
  {
    if refs[j].Explicit? {
      assert StepYields(deps, inputs, mid, refs[j], mid);
    } else if refs[j].id !in deps {
      assert BareStep(deps, inputs, mid, refs[j], Err(""));
    } else {
      var id, outputs := refs[j].id, deps[refs[j].id].outputs;
      SameConditions(deps, inputs, start, refs[..j], mid, id);
      AlwaysYieldsIff(inputs, mid, id, outputs);
      forall r ensures BareStep(deps, inputs, mid, refs[j], r) <==> Matches(inputs, mid, id, outputs, r) {}
      forall m ensures AlwaysYields(inputs, mid, id, outputs, m) <==> StepYields(deps, inputs, mid, refs[j], m) {}
    }
  }

  lemma StepKeepsBound(deps: Manifests, inputs: map<string, string>, mid: Matching, ref: InputRef, m: Matching)
    requires BareStep(deps, inputs, mid, ref, Ok(m))
    ensures forall n :: n in mid.bound ==> n in m.bound && m.bound[n] == mid.bound[n]
  {
    if ref.Bare? { MatchBindsWanted(inputs, mid, ref.id, deps[ref.id].outputs, m); }
  }

  /** If all passes end in the same matching, they were in the same one before. */
  lemma SameBefore(deps: Manifests, inputs: map<string, string>, start: Matching, refs: seq<InputRef>, m: Matching)
    returns (mid: Matching)
    requires refs != [] && BareYields(deps, inputs, start, refs, m)
    ensures BareYields(deps, inputs, start, refs[..|refs| - 1], mid)
    ensures BarePass(deps, inputs, start, refs[..|refs| - 1], Ok(mid))
    ensures StepYields(deps, inputs, mid, refs[|refs| - 1], m)
  {
    var k := |refs| - 1;
    var one := PassExists(deps, inputs, start, refs[..k]);
    BoundAsAtTheEnd(deps, inputs, start, refs, m, one);
    mid := one.value;
    forall r | BarePass(deps, inputs, start, refs[..k], r) ensures r == Ok(mid) {
      BoundAsAtTheEnd(deps, inputs, start, refs, m, r);
      assert r.value.bound == mid.bound;
      BoundAlike(start, r.value, mid);
    }
    forall r | BareStep(deps, inputs, mid, refs[k], r) ensures r == Ok(m) {
      PassThenStep(deps, inputs, start, refs, mid, r);
    }
  }

  lemma BoundAsAtTheEnd(deps: Manifests, inputs: map<string, string>, start: Matching, refs: seq<InputRef>, m: Matching,
                        r: Result<Matching>)
    requires refs != [] && BareYields(deps, inputs, start, refs, m) &&
             BarePass(deps, inputs, start, refs[..|refs| - 1], r)
    ensures r.Ok? && r.value.bound.Keys == Occupied(deps, inputs, start, refs[..|refs| - 1]) &&
            ClaimsBound(start, r.value)
    ensures forall n :: n in r.value.bound ==> n in m.bound && m.bound[n] == r.value.bound[n]
  {
    var full := GoesOn(deps, inputs, start, refs, r);
    assert full == Ok(m);
    PassReaches(deps, inputs, start, refs[..|refs| - 1], r.value);
    StepKeepsBound(deps, inputs, r.value, refs[|refs| - 1], m);
  }

  lemma LastYields(deps: Manifests, inputs: map<string, string>, start: Matching, refs: seq<InputRef>)
    requires refs != []
    ensures var front := refs[..|refs| - 1];
            (exists m :: BareYields(deps, inputs, start, refs, m)) <==>
            (exists m :: BareYields(deps, inputs, start, front, m)) && FitsAt(deps, inputs, start, refs, |refs| - 1)
  {
    var k := |refs| - 1;
    if m :| BareYields(deps, inputs, start, refs, m) {
      var mid := SameBefore(deps, inputs, start, refs, m);
      PassReaches(deps, inputs, start, refs[..k], mid);
      StepYieldsIff(deps, inputs, start, refs, k, mid);
    }
    if mid :| BareYields(deps, inputs, start, refs[..k], mid) && FitsAt(deps, inputs, start, refs, k) {
      var one := PassExists(deps, inputs, start, refs[..k]);
      PassReaches(deps, inputs, start, refs[..k], mid);
      StepYieldsIff(deps, inputs, start, refs, k, mid);
      var m :| StepYields(deps, inputs, mid, refs[k], m);
      assert BareYields(deps, inputs, start, refs, m);
    }
  }

  /** All orders have the same matching exactly when each reference, met with the
      inputs bound that the earlier ones bind, fits one to one. */
  lemma {:induction false} BareYieldsIff(deps: Manifests, inputs: map<string, string>, start: Matching,
                                         refs: seq<InputRef>)
    ensures (exists m :: BareYields(deps, inputs, start, refs, m)) <==>
            forall j: nat :: j < |refs| ==> FitsAt(deps, inputs, start, refs, j)
  {
    if refs == [] {
      assert BareYields(deps, inputs, start, refs, start);
    } else {
      var k := |refs| - 1;
      BareYieldsIff(deps, inputs, start, refs[..k]);
      forall j: nat | j < k
        ensures FitsAt(deps, inputs, start, refs[..k], j) <==> FitsAt(deps, inputs, start, refs, j)
      {
        assert refs[..k][..j] == refs[..j];
      }
      LastYields(deps, inputs, start, refs);
      assert (forall j: nat :: j < |refs| ==> FitsAt(deps, inputs, start, refs, j)) <==>
             (forall j: nat :: j < k ==> FitsAt(deps, inputs, start, refs[..k], j)) &&
               FitsAt(deps, inputs, start, refs, k);
    }
  }

  // ---- The whole call ---------------------------------------------------------------------------------

  lemma GoesAlike(inputs: map<string, string>, m: Matching, ref: InputRef, t: string, a: string, b: string)
    requires ref.Explicit? && Goes(inputs, m, ref, t, a) && Goes(inputs, m, ref, t, b)
    ensures a == b
  {
    if ref.target == "" { LeastIsUnique(Candidates(inputs, m, t), a); }
  }

  /** The explicit references leave nothing to order. */
  lemma {:induction false} ExplicitAlike(deps: Manifests, inputs: map<string, string>, refs: seq<InputRef>,
                                         r: Result<Matching>, r': Result<Matching>)
    requires ExplicitPass(deps, inputs, refs, r) && ExplicitPass(deps, inputs, refs, r')
    ensures SameOutcome(r, r')
  {
    if refs != [] {
      var k := |refs| - 1;
      var mid :| ExplicitPass(deps, inputs, refs[..k], mid) &&
        if mid.Err? then r.Err? else if refs[k].Bare? then r == mid
          else ExplicitStep(deps, inputs, mid.value, refs[k], r);
      var mid' :| ExplicitPass(deps, inputs, refs[..k], mid') &&
        if mid'.Err? then r'.Err? else if refs[k].Bare? then r' == mid'
          else ExplicitStep(deps, inputs, mid'.value, refs[k], r');
      ExplicitAlike(deps, inputs, refs[..k], mid, mid');
      if mid.Ok? && refs[k].Explicit? && r.Ok? && r'.Ok? {
        var ref := refs[k];
        var t := deps[ref.block].outputs[ref.output];
        var a :| Goes(inputs, mid.value, ref, t, a) && r.value == Bind(mid.value, a, ref.block, ref.output, t);
        var b :| Goes(inputs, mid.value, ref, t, b) && r'.value == Bind(mid.value, b, ref.block, ref.output, t);
        GoesAlike(inputs, mid.value, ref, t, a, b);
      }
    }
  }

  ghost predicate ExplicitFails(deps: Manifests, inputs: map<string, string>, refs: seq<InputRef>) {
    forall r :: ExplicitPass(deps, inputs, refs, r) ==> r.Err?
  }

  ghost predicate Supplied(inputs: map<string, string>, taken: set<string>) {
    forall n :: n in inputs && !IsScalar(inputs[n]) ==> n in taken
  }

  /** Every order fails: an explicit reference does, or some bare one is unknown or
      stuck, or an input stays without a source. */
  ghost predicate Refused(deps: Manifests, inputs: map<string, string>, refs: seq<InputRef>) {
    || ExplicitFails(deps, inputs, refs)
    || exists start :: ExplicitPass(deps, inputs, refs, Ok(start)) &&
         ((exists j :: FailsAt(deps, inputs, start, refs, j)) || !Supplied(inputs, Occupied(deps, inputs, start, refs)))
  }

  /** Every order fits alike. */
  ghost predicate Fitting(deps: Manifests, inputs: map<string, string>, refs: seq<InputRef>) {
    exists start :: ExplicitPass(deps, inputs, refs, Ok(start)) &&
      forall j: nat :: j < |refs| ==> FitsAt(deps, inputs, start, refs, j)
  }

  lemma ResolvedIsNotRefused(deps: Manifests, inputs: map<string, string>, refs: seq<InputRef>, m: Matching)
    requires Resolves(deps, inputs, refs, Ok(m))
    ensures !Refused(deps, inputs, refs)
  {
    var a, b :| ResolvesBy(deps, inputs, refs, a, b, Ok(m));
    var only := a.value;
    assert ExplicitPass(deps, inputs, refs, Ok(only)) && BarePass(deps, inputs, only, refs, Ok(m));
    PassReaches(deps, inputs, only, refs, m);
    BareFailsIff(deps, inputs, only, refs);
    forall start | ExplicitPass(deps, inputs, refs, Ok(start)) ensures start == only {
      ExplicitAlike(deps, inputs, refs, Ok(only), Ok(start));
    }
  }

  lemma NotRefusedResolves(deps: Manifests, inputs: map<string, string>, refs: seq<InputRef>) returns (m: Matching)
    requires !Refused(deps, inputs, refs)
    ensures Resolves(deps, inputs, refs, Ok(m))
  {
    var a :| ExplicitPass(deps, inputs, refs, a) && a.Ok?;
    var start := a.value;
    assert ExplicitPass(deps, inputs, refs, Ok(start));
    BareFailsIff(deps, inputs, start, refs);
    var b :| BarePass(deps, inputs, start, refs, b) && b.Ok?;
    m := b.value;
    assert b == Ok(m);
    PassReaches(deps, inputs, start, refs, m);
    assert ResolvesBy(deps, inputs, refs, a, b, Ok(m));
  }

  /** The call fails in every order exactly then. */
  lemma AlwaysRefusedIff(deps: Manifests, inputs: map<string, string>, refs: seq<InputRef>)
    ensures (forall r :: Resolves(deps, inputs, refs, r) ==> r.Err?) <==> Refused(deps, inputs, refs)
  {
    forall r | Resolves(deps, inputs, refs, r) && r.Ok? ensures !Refused(deps, inputs, refs) {
      assert r == Ok(r.value);
      ResolvedIsNotRefused(deps, inputs, refs, r.value);
    }
    if !Refused(deps, inputs, refs) {
      var m := NotRefusedResolves(deps, inputs, refs);
    }
  }

  ghost predicate ResolvesAlike(deps: Manifests, inputs: map<string, string>, refs: seq<InputRef>) {
    forall r, r' :: Resolves(deps, inputs, refs, r) && Resolves(deps, inputs, refs, r') ==> SameOutcome(r, r')
  }

  lemma FittingIsAlike(deps: Manifests, inputs: map<string, string>, refs: seq<InputRef>)
    requires Fitting(deps, inputs, refs)
    ensures ResolvesAlike(deps, inputs, refs)
  {
    var start :| ExplicitPass(deps, inputs, refs, Ok(start)) && forall j: nat :: j < |refs| ==>
      FitsAt(deps, inputs, start, refs, j);
    BareYieldsIff(deps, inputs, start, refs);
    var m :| BareYields(deps, inputs, start, refs, m);
    forall r | Resolves(deps, inputs, refs, r)
      ensures SameOutcome(r, if Complete(inputs, m.bound) then Ok(m) else Err(""))
    {
      var a, b :| ResolvesBy(deps, inputs, refs, a, b, r);
      ExplicitAlike(deps, inputs, refs, Ok(start), a);
      assert b == Ok(m);
    }
  }

  /** Whether a block's inputs resolve, and to which outputs, is independent of
      the order of every map exactly when every order fails or every bare
      reference fits one to one. */
  lemma ResolutionAlikeIff(deps: Manifests, inputs: map<string, string>, refs: seq<InputRef>)
    ensures ResolvesAlike(deps, inputs, refs) <==> Refused(deps, inputs, refs) || Fitting(deps, inputs, refs)
  {
    AlwaysRefusedIff(deps, inputs, refs);
    if Fitting(deps, inputs, refs) { FittingIsAlike(deps, inputs, refs); }
    if ResolvesAlike(deps, inputs, refs) && !Refused(deps, inputs, refs) {
      var r :| Resolves(deps, inputs, refs, r) && r.Ok?;
      var a, b :| ResolvesBy(deps, inputs, refs, a, b, r);
      forall b' | BarePass(deps, inputs, a.value, refs, b') ensures b' == Ok(r.value) {
        var r' := if b'.Ok? && Complete(inputs, b'.value.bound) then b' else Err("");
        assert ResolvesBy(deps, inputs, refs, a, b', r');
        assert SameOutcome(r, r');
      }
      assert BareYields(deps, inputs, a.value, refs, r.value);
      BareYieldsIff(deps, inputs, a.value, refs);
      assert a == Ok(a.value);
    }
  }

  // ---- In document order ---------------------------------------------------------------------------------

  lemma OneOutput(inputs: map<string, string>, m: Matching, id: Id, o: string, t: string, r: Result<Matching>)
    ensures Matches(inputs, m, id, map[o := t], r) <==> MatchStep(inputs, m, id, o, t, r)
  {
    var outputs := map[o := t];
    if MatchStep(inputs, m, id, o, t, r) {
      OneStep(inputs, m, id, outputs, o, r);
      assert Enumerates([o], outputs.Keys);
    }
    if order :| Enumerates(order, outputs.Keys) && MatchPass(inputs, m, id, outputs, order, r) {
      NoDuplicatesCard(order, outputs.Keys);
      assert order == [o] && order[..0] == [];
      var mid :| MatchPass(inputs, m, id, outputs, order[..0], mid) &&
        if mid.Err? then r.Err? else MatchStep(inputs, mid.value, id, o, outputs[o], r);
    }
  }

  lemma SameClaim(inputs: map<string, string>, m: Matching, id: Id, o: string, t: string, n: string,
                  r: Result<Matching>)
    requires Candidates(inputs, m, t) == {n} && (id, o) !in m.claimed
    ensures MatchStep(inputs, m, id, o, t, r) <==> r == Ok(Bind(m, n, id, o, t))
  {
  }

  /** Two dependencies whose outputs fit the same input: the reference that comes
      first supplies it. */
  lemma EarlierReferenceWins(deps: Manifests, a: Id, o: string, t: string, b: Id, p: string, u: string,
                             n: string, inputType: string, start: Matching, r: Result<Matching>)
    requires a in deps && deps[a].outputs == map[o := t] && b in deps && deps[b].outputs == map[p := u]
    requires TypesCompatible(inputType, t) && TypesCompatible(inputType, u) && start == NONE_BOUND
    ensures BarePass(deps, map[n := inputType], start, [Bare(a), Bare(b)], r) <==> r == Ok(Bind(start, n, a, o, t))
  {
    var inputs, refs := map[n := inputType], [Bare(a), Bare(b)];
    var m := Bind(start, n, a, o, t);
    assert Candidates(inputs, start, t) == {n} && Candidates(inputs, m, u) == {};
    forall x ensures BareStep(deps, inputs, start, Bare(a), x) <==> x == Ok(m) {
      OneOutput(inputs, start, a, o, t, x);
      SameClaim(inputs, start, a, o, t, n, x);
    }
    forall x ensures BareStep(deps, inputs, m, Bare(b), x) <==> x == Ok(m) { OneOutput(inputs, m, b, p, u, x); }
    TwoReferences(deps, inputs, start, refs, m, r);
  }

  lemma TwoReferences(deps: Manifests, inputs: map<string, string>, start: Matching, refs: seq<InputRef>,
                      m: Matching, r: Result<Matching>)
    requires |refs| == 2
    requires forall x :: BareStep(deps, inputs, start, refs[0], x) <==> x == Ok(m)
    requires forall x :: BareStep(deps, inputs, m, refs[1], x) <==> x == Ok(m)
    ensures BarePass(deps, inputs, start, refs, r) <==> r == Ok(m)
  {
    assert refs[..1][..0] == [] && refs[..1][0] == refs[0] && refs[..2] == refs;
    assert BarePass(deps, inputs, start, [], Ok(start));
    forall x ensures BarePass(deps, inputs, start, refs[..1], x) <==> x == Ok(m) {
      if x == Ok(m) { BarePassNext(deps, inputs, start, refs[..1], 0, start, x); assert refs[..1][..1] == refs[..1]; }
    }
    if r == Ok(m) { BarePassNext(deps, inputs, start, refs, 1, m, r); }
  }

  /** Explicit references that name no input take the inputs they fit by name, one
      after the other. */
  lemma ExplicitTakeByName(deps: Manifests, inputs: map<string, string>, refs: seq<InputRef>, x: string, y: string,
                           r: Result<Matching>)
    requires |refs| == 2 && refs[0].Explicit? && refs[1].Explicit? && refs[0].target == "" && refs[1].target == ""
    requires inputs.Keys == {x, y} && x != "" && y != "" && Before(x, y)
    requires forall i :: 0 <= i < 2 ==>
               && refs[i].block in deps && refs[i].output in deps[refs[i].block].outputs
               && (forall n :: n in inputs ==> TypesCompatible(inputs[n], deps[refs[i].block].outputs[refs[i].output]))
    ensures ExplicitPass(deps, inputs, refs, r) && r.Ok? ==>
              && x in r.value.bound && r.value.bound[x].source == refs[0].block &&
                   r.value.bound[x].output == refs[0].output
              && y in r.value.bound && r.value.bound[y].source == refs[1].block &&
                   r.value.bound[y].output == refs[1].output
    ensures exists m :: ExplicitPass(deps, inputs, refs, Ok(m))
  {
    var t0, t1 := deps[refs[0].block].outputs[refs[0].output], deps[refs[1].block].outputs[refs[1].output];
    var first := Bind(NONE_BOUND, x, refs[0].block, refs[0].output, t0);
    var both := Bind(first, y, refs[1].block, refs[1].output, t1);
    BeforeTotal(x, y);
    assert Candidates(inputs, NONE_BOUND, t0) == {x, y} && Candidates(inputs, first, t1) == {y};
    assert Goes(inputs, NONE_BOUND, refs[0], t0, x) && Goes(inputs, first, refs[1], t1, y);
    assert refs[..0] == [] && refs[..2] == refs;
    ExplicitPassNext(deps, inputs, refs, 0, NONE_BOUND, Ok(first));
    ExplicitPassNext(deps, inputs, refs, 1, first, Ok(both));
    if ExplicitPass(deps, inputs, refs, r) && r.Ok? {
      ExplicitAlike(deps, inputs, refs, Ok(both), r);
      assert x != y;
    }
  }

  // ---- Concretely ------------------------------------------------------------------------------------------

  /** A block with a single bare reference fares as that reference does. */
  lemma OneBareResolves(inputs: map<string, string>, id: Id, outputs: map<string, string>, r: Result<Matching>)
    requires Matches(inputs, NONE_BOUND, id, outputs, r)
    requires r.Ok? ==> Complete(inputs, r.value.bound)
    ensures Resolves(map[id := Manifest(map[], outputs)], inputs, [Bare(id)], r)
  {
    var deps: Manifests := map[id := Manifest(map[], outputs)];
    var refs := [Bare(id)];
    assert refs[..0] == [] && refs[..1] == refs && deps[id].outputs == outputs;
    ExplicitPassNext(deps, inputs, refs, 0, NONE_BOUND, Ok(NONE_BOUND));
    assert BareStep(deps, inputs, NONE_BOUND, refs[0], r);
    BarePassNext(deps, inputs, NONE_BOUND, refs, 0, NONE_BOUND, r);
    assert ResolvesBy(deps, inputs, refs, Ok(NONE_BOUND), r, r);
  }

  /** Two file outputs and one file input: validation and execution may bind
      either, each time anew. */
  lemma SourceIsEither(id: Id)
    ensures var deps := map[id := Manifest(map[], map["left" := "file", "right" := "file"])];
            var inputs := map["source" := "file"];
            && Resolves(deps, inputs, [Bare(id)], Ok(Bind(NONE_BOUND, "source", id, "left", "file")))
            && Resolves(deps, inputs, [Bare(id)], Ok(Bind(NONE_BOUND, "source", id, "right", "file")))
  {
    BindsEitherOutput(id);
    var inputs, outputs := map["source" := "file"], map["left" := "file", "right" := "file"];
    OneBareResolves(inputs, id, outputs, Ok(Bind(NONE_BOUND, "source", id, "left", "file")));
    OneBareResolves(inputs, id, outputs, Ok(Bind(NONE_BOUND, "source", id, "right", "file")));
  }

  /** A block that one order lets through and another refuses. */
  lemma AcceptedOrNot(id: Id)
    ensures var deps := map[id := Manifest(map[], CSV_AND_ITEMS)];
            && Resolves(deps, TABLE_AND_TILES, [Bare(id)], Err(""))
            && exists m :: Resolves(deps, TABLE_AND_TILES, [Bare(id)], Ok(m))
  {
    ItemsFirst(id);
    OneBareResolves(TABLE_AND_TILES, id, CSV_AND_ITEMS, Err(""));
    var m := CsvFirst(id);
    MatchBindsWanted(TABLE_AND_TILES, NONE_BOUND, id, CSV_AND_ITEMS, m);
    FileAndDirectory();
    forall n | n in TABLE_AND_TILES ensures n in m.bound {
      assert "items" in CSV_AND_ITEMS && TypesCompatible(TABLE_AND_TILES[n], CSV_AND_ITEMS["items"]);
      assert n in Wanted(TABLE_AND_TILES, {}, id, CSV_AND_ITEMS);
    }
    OneBareResolves(TABLE_AND_TILES, id, CSV_AND_ITEMS, Ok(m));
  }
}
