// Binding a block's inputs to its dependencies' outputs (core/pipeline.go).
// Go iterates the outputs of a dependency in no fixed order, so the matching of
// a bare reference is a relation over all orders.
module InputResolution {
  import opened Digraphs
  import opened Pipelines

  /** Declared inputs and outputs with their types. */
  datatype Manifest = Manifest(inputs: map<string, string>, outputs: map<string, string>)

  datatype Binding = Binding(source: Id, output: string, outputType: string)

  type Manifests = map<Id, Manifest>

  /** The inputs bound so far and the outputs already claimed. */
  datatype Matching = Matching(bound: map<string, Binding>, claimed: set<(Id, string)>)

  predicate TypesCompatible(inputType: string, outputType: string) {
    || inputType == outputType
    || (outputType == "expansion" && (inputType == "file" || inputType == "directory" || inputType == "collection"))
    || (outputType == "file" && inputType == "collection")
  }

  predicate IsScalar(t: string) {
    t == "string" || t == "number" || t == "boolean"
  }

  /** Apart from equal types: the items of an expansion serve as files, directories
      or a collection, and single files are gathered into a collection. */
  const CONVERSIONS: set<(string, string)> := {
    ("file", "expansion"), ("directory", "expansion"), ("collection", "expansion"), ("collection", "file")}

  lemma CompatibleTypes(inputType: string, outputType: string)
    ensures TypesCompatible(inputType, outputType) <==>
            inputType == outputType || (inputType, outputType) in CONVERSIONS
  {
  }

  /** The inputs still free that could take an output of type t. */
  function Candidates(inputs: map<string, string>, m: Matching, t: string): set<string> {
    set n | n in inputs && n !in m.bound && TypesCompatible(inputs[n], t)
  }

  function Bind(m: Matching, name: string, source: Id, output: string, t: string): Matching {
    Matching(m.bound[name := Binding(source, output, t)], m.claimed + {(source, output)})
  }

  // ---- Names in order ------------------------------------------------------------

  predicate Before(a: string, b: string) {
    if b == [] then false
    else if a == [] then true
    else a[0] < b[0] || (a[0] == b[0] && Before(a[1..], b[1..]))
  }

  lemma {:induction false} BeforeTotal(a: string, b: string)
    ensures a == b || Before(a, b) || Before(b, a)
    ensures !(Before(a, b) && Before(b, a)) && !Before(a, a)
  {
    if a != [] && b != [] {
      BeforeTotal(a[1..], b[1..]);
      BeforeTotal(a[1..], a[1..]);
      assert a == [a[0]] + a[1..] && b == [b[0]] + b[1..];
    } else if a != [] {
      BeforeTotal(a[1..], a[1..]);
    }
  }

  lemma {:induction false} BeforeTransitive(a: string, b: string, c: string)
    requires Before(a, b) && Before(b, c)
    ensures Before(a, c)
  {
    if a != [] && a[0] == b[0] && b[0] == c[0] {
      BeforeTransitive(a[1..], b[1..], c[1..]);
    }
  }

  /** A proper prefix, or smaller where the two first differ. */
  lemma {:induction false} BeforeMeans(a: string, b: string)
    ensures Before(a, b) <==>
            (a < b) || exists k :: 0 <= k < |a| && k < |b| && a[..k] == b[..k] && a[k] < b[k]
  {
    if a != [] && b != [] {
      BeforeMeans(a[1..], b[1..]);
      if a[0] == b[0] {
        FirstDifference(a, b);
      } else {
        assert a[..0] == b[..0];
        assert forall k :: 0 < k < |a| && k < |b| && a[..k] == b[..k] ==> a[..k][0] == b[..k][0];
      }
    }
  }

  lemma FirstDifference(a: string, b: string)
    requires a != [] && b != [] && a[0] == b[0]
    ensures (exists k :: 0 <= k < |a| && k < |b| && a[..k] == b[..k] && a[k] < b[k]) <==>
            (exists k :: 0 <= k < |a[1..]| && k < |b[1..]| && a[1..][..k] == b[1..][..k] && a[1..][k] < b[1..][k])
    ensures a < b <==> a[1..] < b[1..]
  {
    assert a == [a[0]] + a[1..] && b == [b[0]] + b[1..];
    if k :| 0 <= k < |a| && k < |b| && a[..k] == b[..k] && a[k] < b[k] {
      assert a[..k] == [a[0]] + a[1..][..k - 1] && b[..k] == [b[0]] + b[1..][..k - 1];
      assert a[1..][..k - 1] == a[..k][1..] && b[1..][..k - 1] == b[..k][1..];
      assert a[1..][k - 1] < b[1..][k - 1];
    }
    if k :| 0 <= k < |a[1..]| && k < |b[1..]| && a[1..][..k] == b[1..][..k] && a[1..][k] < b[1..][k] {
      assert a[..k + 1] == [a[0]] + a[1..][..k] && b[..k + 1] == [b[0]] + b[1..][..k];
      assert a[k + 1] < b[k + 1];
    }
  }

  ghost predicate Sorted(names: seq<string>) {
    forall i, j :: 0 <= i < j < |names| ==> Before(names[i], names[j])
  }

  method SortedNames(names: set<string>) returns (sorted: seq<string>)
    ensures Sorted(sorted) && forall n :: n in sorted <==> n in names
  {
    sorted := [];
    var left := names;
    while left != {}
      invariant left <= names && Sorted(sorted)
      invariant forall n :: n in sorted <==> n in names && n !in left
      decreases left
    {
      var n :| n in left;
      left := left - {n};
      sorted := InsertName(sorted, n);
    }
  }

  method InsertName(names: seq<string>, n: string) returns (r: seq<string>)
    requires Sorted(names) && n !in names
    ensures Sorted(r) && forall x :: x in r <==> x == n || x in names
  {
    var i := 0;
    while i < |names| && Before(names[i], n)
      invariant i <= |names|
      invariant forall j :: 0 <= j < i ==> Before(names[j], n)
    {
      i := i + 1;
    }
    forall j | i <= j < |names| ensures Before(n, names[j]) {
      BeforeTotal(n, names[i]);
      assert names[i] in names;
      if i < j { BeforeTransitive(n, names[i], names[j]); }
    }
    r := names[..i] + [n] + names[i..];
  }

  ghost predicate IsLeast(c: set<string>, n: string) {
    n in c && forall o :: o in c && o != n ==> Before(n, o)
  }

  // ---- Explicit references -----------------------------------------------------------

  /** The input an explicit reference goes to: the one it names, else the first
      free compatible one in name order. */
  ghost predicate Goes(inputs: map<string, string>, m: Matching, ref: InputRef, t: string, name: string)
    requires ref.Explicit?
  {
    if ref.target != "" then name == ref.target && name in inputs && TypesCompatible(inputs[name], t)
    else name != "" && IsLeast(Candidates(inputs, m, t), name)
  }

  ghost predicate ExplicitStep(deps: Manifests, inputs: map<string, string>, m: Matching, ref: InputRef,
                               r: Result<Matching>)
    requires ref.Explicit?
  {
    if ref.block in deps && ref.output in deps[ref.block].outputs
       && exists name :: Goes(inputs, m, ref, deps[ref.block].outputs[ref.output], name)
    then
      var t := deps[ref.block].outputs[ref.output];
      r.Ok? && exists name :: Goes(inputs, m, ref, t, name) && r.value == Bind(m, name, ref.block, ref.output, t)
    else r.Err?
  }

  /** What the explicit references among `refs`, taken in order, lead to. */
  ghost predicate ExplicitPass(deps: Manifests, inputs: map<string, string>, refs: seq<InputRef>, r: Result<Matching>) {
    if refs == [] then r == Ok(Matching(map[], {}))
    else
      var last := refs[|refs| - 1];
      exists mid {:trigger ExplicitPass(deps, inputs, refs[..|refs| - 1], mid)} ::
        ExplicitPass(deps, inputs, refs[..|refs| - 1], mid) &&
        if mid.Err? then r.Err?
        else if last.Bare? then r == mid
        else ExplicitStep(deps, inputs, mid.value, last, r)
  }

  method FirstFree(inputs: map<string, string>, m: Matching, t: string) returns (name: string)
    ensures name != "" ==> IsLeast(Candidates(inputs, m, t), name)
    ensures name == "" ==> forall n :: IsLeast(Candidates(inputs, m, t), n) ==> n == ""
  {
    var names := SortedNames(inputs.Keys);
    for i := 0 to |names|
      invariant forall j :: 0 <= j < i ==> names[j] !in Candidates(inputs, m, t)
    {
      assert names[i] in inputs;
      if names[i] !in m.bound && TypesCompatible(inputs[names[i]], t) {
        name := names[i];
        forall o | o in Candidates(inputs, m, t) && o != name ensures Before(name, o) {
          var k :| 0 <= k < |names| && names[k] == o;
        }
        assert IsLeast(Candidates(inputs, m, t), name);
        LeastIsUnique(Candidates(inputs, m, t), name);
        return;
      }
    }
    name := "";
  }

  lemma LeastIsUnique(c: set<string>, a: string)
    requires IsLeast(c, a)
    ensures forall b :: IsLeast(c, b) ==> a == b
  {
    forall b | IsLeast(c, b) ensures a == b { BeforeTotal(a, b); }
  }

  method ResolveExplicit(deps: Manifests, inputs: map<string, string>, m: Matching, ref: InputRef)
    returns (r: Result<Matching>)
    requires ref.Explicit?
    ensures ExplicitStep(deps, inputs, m, ref, r)
  {
    if ref.block !in deps {
      return Err("explicit reference to unknown block");
    }
    if ref.output !in deps[ref.block].outputs {
      return Err("block has no such output");
    }
    var t := deps[ref.block].outputs[ref.output];
    var name := "";
    if ref.target != "" {
      if ref.target !in inputs {
        return Err("explicit reference targets unknown input");
      }
      if !TypesCompatible(inputs[ref.target], t) {
        return Err("input not compatible with output type");
      }
      name := ref.target;
    } else {
      name := FirstFree(inputs, m, t);
    }
    if name == "" {
      return Err("no unmatched input for explicit reference");
    }
    assert Goes(inputs, m, ref, t, name);
    return Ok(Bind(m, name, ref.block, ref.output, t));
  }

  // ---- Bare references -------------------------------------------------------------------

  ghost predicate MatchStep(inputs: map<string, string>, m: Matching, id: Id, output: string, t: string,
                            r: Result<Matching>)
  {
    var c := Candidates(inputs, m, t);
    if (id, output) in m.claimed || c == {} then r == Ok(m)
    else if |c| > 1 then r.Err?
    else r.Ok? && exists n :: n in c && r.value == Bind(m, n, id, output, t)
  }

  /** The outputs of one dependency, visited in the given order. */
  ghost predicate MatchPass(inputs: map<string, string>, m: Matching, id: Id, outputs: map<string, string>,
                            order: seq<string>, r: Result<Matching>)
  {
    if order == [] then r == Ok(m)
    else
      var last := order[|order| - 1];
      last in outputs && exists mid {:trigger MatchPass(inputs, m, id, outputs, order[..|order| - 1], mid)} ::
        MatchPass(inputs, m, id, outputs, order[..|order| - 1], mid) &&
        if mid.Err? then r.Err? else MatchStep(inputs, mid.value, id, last, outputs[last], r)
  }

  ghost predicate Matches(inputs: map<string, string>, m: Matching, id: Id, outputs: map<string, string>,
                          r: Result<Matching>)
  {
    exists order :: Enumerates(order, outputs.Keys) && MatchPass(inputs, m, id, outputs, order, r)
  }

  ghost predicate BareStep(deps: Manifests, inputs: map<string, string>, m: Matching, ref: InputRef,
                           r: Result<Matching>)
  {
    if ref.Explicit? then r == Ok(m)
    else if ref.id !in deps then r.Err?
    else Matches(inputs, m, ref.id, deps[ref.id].outputs, r)
  }

  ghost predicate BarePass(deps: Manifests, inputs: map<string, string>, start: Matching, refs: seq<InputRef>,
                           r: Result<Matching>)
  {
    if refs == [] then r == Ok(start)
    else
      exists mid {:trigger BarePass(deps, inputs, start, refs[..|refs| - 1], mid)} ::
        BarePass(deps, inputs, start, refs[..|refs| - 1], mid) &&
        if mid.Err? then r.Err? else BareStep(deps, inputs, mid.value, refs[|refs| - 1], r)
  }

  method MatchOutput(inputs: map<string, string>, m: Matching, id: Id, output: string, t: string)
    returns (r: Result<Matching>)
    ensures MatchStep(inputs, m, id, output, t, r)
  {
    if (id, output) in m.claimed {
      return Ok(m);
    }
    var candidates := Candidates(inputs, m, t);
    if |candidates| > 1 {
      return Err("ambiguous type match");
    }
    if |candidates| == 1 {
      var n :| n in candidates;
      return Ok(Bind(m, n, id, output, t));
    }
    return Ok(m);
  }

  lemma MatchPassFails(inputs: map<string, string>, m: Matching, id: Id, outputs: map<string, string>,
                       order: seq<string>, rest: seq<string>, r: Result<Matching>)
    requires MatchPass(inputs, m, id, outputs, order, r) && r.Err?
    requires forall o :: o in rest ==> o in outputs
    ensures MatchPass(inputs, m, id, outputs, order + rest, r)
  {
    if rest == [] {
      assert order + rest == order;
    } else {
      MatchPassFails(inputs, m, id, outputs, order, rest[..|rest| - 1], r);
      assert (order + rest)[..|order + rest| - 1] == order + rest[..|rest| - 1];
    }
  }

  lemma FailsEarly(inputs: map<string, string>, m: Matching, id: Id, outputs: map<string, string>,
                   order: seq<string>, unseen: set<string>, r: Result<Matching>)
    requires MatchPass(inputs, m, id, outputs, order, r) && r.Err? && NoDuplicates(order)
    requires unseen <= outputs.Keys && forall o :: o in order <==> o in outputs && o !in unseen
    ensures Matches(inputs, m, id, outputs, r)
  {
    var rest := EnumerationExists(unseen);
    MatchPassFails(inputs, m, id, outputs, order, rest, r);
    NoDuplicatesConcat(order, rest);
    assert Enumerates(order + rest, outputs.Keys);
  }

  method ResolveBare(inputs: map<string, string>, m: Matching, id: Id, outputs: map<string, string>)
    returns (r: Result<Matching>)
    ensures Matches(inputs, m, id, outputs, r)
  {
    r := Ok(m);
    ghost var order: seq<string> := [];
    var unseen := outputs.Keys;
    while unseen != {}
      invariant unseen <= outputs.Keys && NoDuplicates(order)
      invariant forall o :: o in order <==> o in outputs && o !in unseen
      invariant r.Ok? && MatchPass(inputs, m, id, outputs, order, r)
      decreases unseen
    {
      var o :| o in unseen;
      unseen := unseen - {o};
      r := MatchOutput(inputs, r.value, id, o, outputs[o]);
      assert (order + [o])[..|order|] == order;
      order := order + [o];
      if r.Err? {
        FailsEarly(inputs, m, id, outputs, order, unseen, r);
        return;
      }
    }
    assert Enumerates(order, outputs.Keys);
  }

  // ---- The whole algorithm ------------------------------------------------------------------

  predicate Complete(inputs: map<string, string>, bound: map<string, Binding>) {
    forall n :: n in inputs && !IsScalar(inputs[n]) ==> n in bound
  }

  ghost predicate Resolves(deps: Manifests, inputs: map<string, string>, refs: seq<InputRef>, r: Result<Matching>) {
    exists a, b :: ResolvesBy(deps, inputs, refs, a, b, r)
  }

  ghost predicate ResolvesBy(deps: Manifests, inputs: map<string, string>, refs: seq<InputRef>,
                             explicit: Result<Matching>, bare: Result<Matching>, r: Result<Matching>)
  {
    && ExplicitPass(deps, inputs, refs, explicit)
    && (explicit.Ok? ==> BarePass(deps, inputs, explicit.value, refs, bare))
    && if explicit.Ok? && bare.Ok? && Complete(inputs, bare.value.bound) then r == bare else r.Err?
  }

  lemma ExplicitPassFails(deps: Manifests, inputs: map<string, string>, refs: seq<InputRef>, rest: seq<InputRef>,
                          r: Result<Matching>)
    requires ExplicitPass(deps, inputs, refs, r) && r.Err?
    ensures ExplicitPass(deps, inputs, refs + rest, r)
  {
    if rest == [] {
      assert refs + rest == refs;
    } else {
      ExplicitPassFails(deps, inputs, refs, rest[..|rest| - 1], r);
      assert (refs + rest)[..|refs + rest| - 1] == refs + rest[..|rest| - 1];
    }
  }

  lemma BarePassFails(deps: Manifests, inputs: map<string, string>, m: Matching, refs: seq<InputRef>,
                      rest: seq<InputRef>, r: Result<Matching>)
    requires BarePass(deps, inputs, m, refs, r) && r.Err?
    ensures BarePass(deps, inputs, m, refs + rest, r)
  {
    if rest == [] {
      assert refs + rest == refs;
    } else {
      BarePassFails(deps, inputs, m, refs, rest[..|rest| - 1], r);
      assert (refs + rest)[..|refs + rest| - 1] == refs + rest[..|rest| - 1];
    }
  }

  lemma ExplicitPassNext(deps: Manifests, inputs: map<string, string>, refs: seq<InputRef>, i: nat, m: Matching,
                         r: Result<Matching>)
    requires i < |refs| && ExplicitPass(deps, inputs, refs[..i], Ok(m))
    requires if refs[i].Bare? then r == Ok(m) else ExplicitStep(deps, inputs, m, refs[i], r)
    ensures ExplicitPass(deps, inputs, refs[..i + 1], r)
    ensures r.Err? ==> ExplicitPass(deps, inputs, refs, r)
  {
    var front := refs[..i + 1];
    assert front[..i] == refs[..i] && front[i] == refs[i] && |front| - 1 == i;
    assert ExplicitPass(deps, inputs, front[..|front| - 1], Ok(m));
    if r.Err? {
      ExplicitPassFails(deps, inputs, front, refs[i + 1..], r);
      assert front + refs[i + 1..] == refs;
    }
  }

  method ExplicitReferences(deps: Manifests, inputs: map<string, string>, refs: seq<InputRef>)
    returns (r: Result<Matching>)
    ensures ExplicitPass(deps, inputs, refs, r)
  {
    r := Ok(Matching(map[], {}));
    for i := 0 to |refs|
      invariant r.Ok? && ExplicitPass(deps, inputs, refs[..i], r)
    {
      ghost var m := r.value;
      if refs[i].Bare? {
        ExplicitPassNext(deps, inputs, refs, i, m, r);
        continue;
      }
      r := ResolveExplicit(deps, inputs, r.value, refs[i]);
      ExplicitPassNext(deps, inputs, refs, i, m, r);
      if r.Err? {
        return;
      }
    }
    assert refs[..|refs|] == refs;
  }

  lemma BarePassNext(deps: Manifests, inputs: map<string, string>, start: Matching, refs: seq<InputRef>, i: nat,
                     m: Matching, r: Result<Matching>)
    requires i < |refs| && BarePass(deps, inputs, start, refs[..i], Ok(m)) && BareStep(deps, inputs, m, refs[i], r)
    ensures BarePass(deps, inputs, start, refs[..i + 1], r)
    ensures r.Err? ==> BarePass(deps, inputs, start, refs, r)
  {
    var front := refs[..i + 1];
    assert front[..i] == refs[..i] && front[i] == refs[i] && |front| - 1 == i;
    assert BarePass(deps, inputs, start, front[..|front| - 1], Ok(m));
    if r.Err? {
      BarePassFails(deps, inputs, start, front, refs[i + 1..], r);
      assert front + refs[i + 1..] == refs;
    }
  }

  method BareReferences(deps: Manifests, inputs: map<string, string>, start: Matching, refs: seq<InputRef>)
    returns (r: Result<Matching>)
    ensures BarePass(deps, inputs, start, refs, r)
  {
    r := Ok(start);
    for i := 0 to |refs|
      invariant r.Ok? && BarePass(deps, inputs, start, refs[..i], r)
    {
      ghost var m := r.value;
      if refs[i].Explicit? {
        BarePassNext(deps, inputs, start, refs, i, m, r);
        continue;
      }
      if refs[i].id !in deps {
        r := Err("bare reference to unknown block");
      } else {
        r := ResolveBare(inputs, r.value, refs[i].id, deps[refs[i].id].outputs);
      }
      BarePassNext(deps, inputs, start, refs, i, m, r);
      if r.Err? {
        return;
      }
    }
    assert refs[..|refs|] == refs;
  }

  method ResolveInputs(block: Block, deps: Manifests, current: Manifest) returns (r: Result<Matching>)
    ensures Resolves(deps, current.inputs, block.inputs, r)
  {
    var explicit := ExplicitReferences(deps, current.inputs, block.inputs);
    if explicit.Err? {
      assert ResolvesBy(deps, current.inputs, block.inputs, explicit, explicit, explicit);
      return explicit;
    }
    r := BareReferences(deps, current.inputs, explicit.value, block.inputs);
    ghost var bare := r;
    if r.Err? {
      assert ResolvesBy(deps, current.inputs, block.inputs, explicit, bare, r);
      return;
    }
    var unseen := current.inputs.Keys;
    while unseen != {}
      invariant r == bare
      invariant forall n :: n in current.inputs && n !in unseen && !IsScalar(current.inputs[n]) ==> n in r.value.bound
      invariant unseen <= current.inputs.Keys
      decreases unseen
    {
      var n :| n in unseen;
      unseen := unseen - {n};
      if n in r.value.bound || IsScalar(current.inputs[n]) {
        continue;
      }
      r := Err("input has no matching source");
      assert !Complete(current.inputs, bare.value.bound);
      assert ResolvesBy(deps, current.inputs, block.inputs, explicit, bare, r);
      return;
    }
    assert ResolvesBy(deps, current.inputs, block.inputs, explicit, bare, r);
  }

  // ---- Soundness ---------------------------------------------------------------------------

  function Claims(refs: seq<InputRef>): set<(Id, string)> {
    set ref | ref in refs && ref.Explicit? :: (ref.block, ref.output)
  }

  /** The binding takes an existing output of a referenced block, and its type fits. */
  ghost predicate Justified(deps: Manifests, inputs: map<string, string>, refs: seq<InputRef>, name: string,
                            b: Binding)
  {
    && name in inputs && b.source in deps && b.output in deps[b.source].outputs
    && b.outputType == deps[b.source].outputs[b.output] && TypesCompatible(inputs[name], b.outputType)
    && exists ref :: ref in refs &&
         (ref == Bare(b.source) || (ref.Explicit? && ref.block == b.source && ref.output == b.output))
  }

  ghost predicate AllJustified(deps: Manifests, inputs: map<string, string>, refs: seq<InputRef>, m: Matching) {
    forall n :: n in m.bound ==> Justified(deps, inputs, refs, n, m.bound[n])
  }

  lemma JustifiedMore(deps: Manifests, inputs: map<string, string>, refs: seq<InputRef>, ref: InputRef, m: Matching)
    requires AllJustified(deps, inputs, refs, m)
    ensures AllJustified(deps, inputs, refs + [ref], m)
  {
    forall n | n in m.bound ensures Justified(deps, inputs, refs + [ref], n, m.bound[n]) {
      var b := m.bound[n];
      var w :| w in refs && (w == Bare(b.source) || (w.Explicit? && w.block == b.source && w.output == b.output));
      assert w in refs + [ref];
    }
  }

  /** The explicit pass claims exactly the outputs named, and binds nothing else. */
  lemma {:induction false} ExplicitPassSound(deps: Manifests, inputs: map<string, string>, refs: seq<InputRef>,
                                             r: Result<Matching>)
    requires ExplicitPass(deps, inputs, refs, r) && r.Ok?
    ensures AllJustified(deps, inputs, refs, r.value) && r.value.claimed == Claims(refs)
    ensures forall n :: n in r.value.bound ==> (r.value.bound[n].source, r.value.bound[n].output) in r.value.claimed
  {
    if refs != [] {
      var k := |refs| - 1;
      var mid :| ExplicitPass(deps, inputs, refs[..k], mid) &&
        if mid.Err? then r.Err?
        else if refs[k].Bare? then r == mid
        else ExplicitStep(deps, inputs, mid.value, refs[k], r);
      ExplicitPassSound(deps, inputs, refs[..k], mid);
      assert refs == refs[..k] + [refs[k]];
      JustifiedMore(deps, inputs, refs[..k], refs[k], mid.value);
      ClaimsMore(refs[..k], refs[k]);
    }
  }

  lemma ClaimsMore(refs: seq<InputRef>, ref: InputRef)
    ensures Claims(refs + [ref]) == Claims(refs) + (if ref.Explicit? then {(ref.block, ref.output)} else {})
  {
  }

  /** How a bare match extends what was there: nothing bound changes, and every
      new binding has an output of its own that was not claimed before. */
  ghost predicate Extends(m: Matching, m': Matching) {
    && m.claimed <= m'.claimed
    && (forall n :: n in m.bound ==> n in m'.bound && m'.bound[n] == m.bound[n])
    && (forall n :: n in m'.bound && n !in m.bound ==>
          var o := (m'.bound[n].source, m'.bound[n].output);
          o in m'.claimed && o !in m.claimed)
    && (forall n, n' :: n in m'.bound && n' in m'.bound && n !in m.bound && n' !in m.bound && n != n' ==>
          (m'.bound[n].source, m'.bound[n].output) != (m'.bound[n'].source, m'.bound[n'].output))
  }

  lemma ExtendsTransitive(a: Matching, b: Matching, c: Matching)
    requires Extends(a, b) && Extends(b, c)
    ensures Extends(a, c)
  {
    forall n, n' | n in c.bound && n' in c.bound && n !in a.bound && n' !in a.bound && n != n'
      ensures (c.bound[n].source, c.bound[n].output) != (c.bound[n'].source, c.bound[n'].output)
    {
      if n in b.bound && n' !in b.bound { assert (b.bound[n].source, b.bound[n].output) in b.claimed; }
      if n' in b.bound && n !in b.bound { assert (b.bound[n'].source, b.bound[n'].output) in b.claimed; }
    }
  }

  /** No output of the dependency is left that a free input could take. */
  ghost predicate NothingFits(inputs: map<string, string>, m: Matching, id: Id, outputs: map<string, string>,
                              seen: seq<string>)
  {
    forall o :: o in seen && o in outputs && (id, o) !in m.claimed ==> Candidates(inputs, m, outputs[o]) == {}
  }

  lemma NothingFitsLater(inputs: map<string, string>, m: Matching, m': Matching, id: Id, outputs: map<string, string>,
                         seen: seq<string>)
    requires NothingFits(inputs, m, id, outputs, seen) && Extends(m, m')
    ensures NothingFits(inputs, m', id, outputs, seen)
  {
    forall o | o in seen && o in outputs && (id, o) !in m'.claimed ensures Candidates(inputs, m', outputs[o]) == {} {
      assert Candidates(inputs, m', outputs[o]) <= Candidates(inputs, m, outputs[o]);
    }
  }

  /** What is bound beyond m takes a compatible output of this dependency. */
  ghost predicate FromOutputs(inputs: map<string, string>, m: Matching, id: Id, outputs: map<string, string>,
                              m': Matching)
  {
    forall n :: n in m'.bound && n !in m.bound ==>
      var b := m'.bound[n];
      n in inputs && b.source == id && b.output in outputs && b.outputType == outputs[b.output] &&
        TypesCompatible(inputs[n], b.outputType)
  }

  lemma MatchStepSound(inputs: map<string, string>, m: Matching, id: Id, outputs: map<string, string>, output: string,
                       r: Result<Matching>)
    requires output in outputs && MatchStep(inputs, m, id, output, outputs[output], r) && r.Ok?
    ensures Extends(m, r.value) && FromOutputs(inputs, m, id, outputs, r.value)
    ensures NothingFits(inputs, r.value, id, outputs, [output])
  {
  }

  lemma {:induction false} MatchPassSound(inputs: map<string, string>, m: Matching, id: Id,
                                          outputs: map<string, string>, order: seq<string>, r: Result<Matching>)
    requires MatchPass(inputs, m, id, outputs, order, r) && r.Ok?
    ensures Extends(m, r.value) && NothingFits(inputs, r.value, id, outputs, order)
    ensures FromOutputs(inputs, m, id, outputs, r.value)
  {
    if order != [] {
      var k := |order| - 1;
      var mid :| MatchPass(inputs, m, id, outputs, order[..k], mid) &&
        if mid.Err? then r.Err? else MatchStep(inputs, mid.value, id, order[k], outputs[order[k]], r);
      MatchPassSound(inputs, m, id, outputs, order[..k], mid);
      assert order == order[..k] + [order[k]];
      MatchStepSound(inputs, mid.value, id, outputs, order[k], r);
      ExtendsTransitive(m, mid.value, r.value);
      NothingFitsLater(inputs, mid.value, r.value, id, outputs, order[..k]);
    }
  }

  ghost predicate Exhausted(deps: Manifests, inputs: map<string, string>, m: Matching, refs: seq<InputRef>) {
    forall ref, o ::
      ref in refs && ref.Bare? && ref.id in deps && o in deps[ref.id].outputs && (ref.id, o) !in m.claimed ==>
      Candidates(inputs, m, deps[ref.id].outputs[o]) == {}
  }

  lemma ExhaustedLater(deps: Manifests, inputs: map<string, string>, m: Matching, m': Matching, refs: seq<InputRef>)
    requires Exhausted(deps, inputs, m, refs) && Extends(m, m')
    ensures Exhausted(deps, inputs, m', refs)
  {
    forall ref, o | ref in refs && ref.Bare? && ref.id in deps && o in deps[ref.id].outputs &&
      (ref.id, o) !in m'.claimed
      ensures Candidates(inputs, m', deps[ref.id].outputs[o]) == {}
    {
      assert Candidates(inputs, m', deps[ref.id].outputs[o]) <= Candidates(inputs, m, deps[ref.id].outputs[o]);
    }
  }

  lemma {:induction false} BarePassSound(deps: Manifests, inputs: map<string, string>, start: Matching,
                                         done: seq<InputRef>, refs: seq<InputRef>, r: Result<Matching>)
    requires BarePass(deps, inputs, start, refs, r) && r.Ok? && AllJustified(deps, inputs, done, start)
    requires forall ref :: ref in refs ==> ref in done
    ensures Extends(start, r.value) && AllJustified(deps, inputs, done, r.value)
    ensures Exhausted(deps, inputs, r.value, refs)
  {
    if refs != [] {
      var k := |refs| - 1;
      var mid :| BarePass(deps, inputs, start, refs[..k], mid) &&
        if mid.Err? then r.Err? else BareStep(deps, inputs, mid.value, refs[k], r);
      BarePassSound(deps, inputs, start, done, refs[..k], mid);
      assert refs == refs[..k] + [refs[k]];
      if refs[k].Bare? {
        BareStepSound(deps, inputs, mid.value, done, refs[k], r);
        ExtendsTransitive(start, mid.value, r.value);
        ExhaustedLater(deps, inputs, mid.value, r.value, refs[..k]);
      }
    }
  }

  lemma BareStepSound(deps: Manifests, inputs: map<string, string>, m: Matching, done: seq<InputRef>, ref: InputRef,
                      r: Result<Matching>)
    requires ref.Bare? && ref in done && ref.id in deps && AllJustified(deps, inputs, done, m)
    requires Matches(inputs, m, ref.id, deps[ref.id].outputs, r) && r.Ok?
    ensures Extends(m, r.value) && AllJustified(deps, inputs, done, r.value)
    ensures Exhausted(deps, inputs, r.value, [ref])
  {
    var outputs := deps[ref.id].outputs;
    var order :| Enumerates(order, outputs.Keys) && MatchPass(inputs, m, ref.id, outputs, order, r);
    MatchPassSound(inputs, m, ref.id, outputs, order, r);
    forall n | n in r.value.bound ensures Justified(deps, inputs, done, n, r.value.bound[n]) {
      if n !in m.bound { assert r.value.bound[n].source == ref.id; }
    }
  }

  /** Whatever orders the maps yield: on success every input that is not a
      scalar is bound; each binding takes an existing, compatible output of a
      referenced block; the explicit bindings survive; the outputs bound through
      bare references are distinct from each other and from every output an
      explicit reference claims; and no unclaimed output of a bare reference
      fits an input left free. */
  lemma ResolutionIsSound(deps: Manifests, inputs: map<string, string>, refs: seq<InputRef>, r: Result<Matching>)
    requires Resolves(deps, inputs, refs, r) && r.Ok?
    ensures Complete(inputs, r.value.bound)
    ensures AllJustified(deps, inputs, refs, r.value)
    ensures exists explicit: Matching ::
              ExplicitPass(deps, inputs, refs, Ok(explicit)) && explicit.claimed == Claims(refs) &&
                Extends(explicit, r.value)
    ensures Exhausted(deps, inputs, r.value, refs)
  {
    var a, b :| ResolvesBy(deps, inputs, refs, a, b, r);
    ExplicitPassSound(deps, inputs, refs, a);
    BarePassSound(deps, inputs, a.value, refs, refs, b);
    assert a == Ok(a.value);
  }

  // ---- Explicit references in detail ----------------------------------------------------------

  /** An input named by `as` gets the output of the last reference naming it. */
  lemma {:induction false} LastNamedWins(deps: Manifests, inputs: map<string, string>, refs: seq<InputRef>,
                                         r: Result<Matching>, i: nat)
    requires ExplicitPass(deps, inputs, refs, r) && r.Ok?
    requires i < |refs| && refs[i].Explicit? && refs[i].target != ""
    requires forall j :: i < j < |refs| && refs[j].Explicit? ==> refs[j].target != refs[i].target
    ensures refs[i].target in r.value.bound
    ensures var b := r.value.bound[refs[i].target]; b.source == refs[i].block && b.output == refs[i].output
  {
    var k := |refs| - 1;
    var mid :| ExplicitPass(deps, inputs, refs[..k], mid) &&
      if mid.Err? then r.Err?
      else if refs[k].Bare? then r == mid
      else ExplicitStep(deps, inputs, mid.value, refs[k], r);
    if i < k {
      LastNamedWins(deps, inputs, refs[..k], mid, i);
    }
  }

  // ---- Which inputs need a source ---------------------------------------------------------------

  lemma WithoutReferences(deps: Manifests, inputs: map<string, string>, r: Result<Matching>)
    ensures Resolves(deps, inputs, [], r) <==>
            if Complete(inputs, map[]) then r == Ok(Matching(map[], {})) else r.Err?
  {
    var none: Result<Matching> := Ok(Matching(map[], {}));
    assert ExplicitPass(deps, inputs, [], none) && BarePass(deps, inputs, none.value, [], none);
    if r == if Complete(inputs, map[]) then none else Err(if r.Err? then r.reason else "") {
      assert ResolvesBy(deps, inputs, [], none, none, r);
    }
  }

  /** Strings, numbers and booleans are given as arguments: a block that declares
      no other inputs resolves without a reference. */
  lemma ParametersNeedNoSource(deps: Manifests, inputs: map<string, string>, r: Result<Matching>)
    requires forall n :: n in inputs ==> inputs[n] in {"string", "number", "boolean"}
    ensures Resolves(deps, inputs, [], r) <==> r == Ok(Matching(map[], {}))
  {
    WithoutReferences(deps, inputs, r);
  }

  /** An input of any other type has a source, or the call fails. */
  lemma OthersNeedSource(deps: Manifests, inputs: map<string, string>, refs: seq<InputRef>, n: string,
                         r: Result<Matching>)
    requires n in inputs && inputs[n] !in {"string", "number", "boolean"} && Resolves(deps, inputs, refs, r)
    ensures r.Err? || n in r.value.bound
    ensures refs == [] ==> r.Err?
  {
    var a, b :| ResolvesBy(deps, inputs, refs, a, b, r);
    if refs == [] { WithoutReferences(deps, inputs, r); }
  }
}
