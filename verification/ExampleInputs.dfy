// The block types of the example documents, and that their inputs resolve.
module ExampleInputs {
  import opened Pipelines
  import opened DependencyGraphs
  import opened MapContexts
  import opened InputResolution
  import PipelinePlans
  import opened ExamplePipelines

  const NOTHING: map<string, string> := map[]

  const ITEMS: map<string, string> := map["items" := "expansion"]

  const TYPES: PipelinePlans.Types := map[
    "split" := Manifest(NOTHING, ITEMS),
    "work" := Manifest(map["item" := "file"], map["result" := "file"]),
    "pair" := Manifest(map["left" := "file", "right" := "file"], map["result" := "file"]),
    "gather" := Manifest(map["parts" := "collection"], NOTHING),
    "watch" := Manifest(NOTHING, NOTHING)]

  lemma FitTogether()
    ensures TypesCompatible("file", "expansion") && TypesCompatible("collection", "file")
    ensures !IsScalar("file") && !IsScalar("collection")
  {
    assert |"file"| == 4 && |"collection"| == 10 && |"string"| == 6 && |"number"| == 6 && |"boolean"| == 7;
  }

  lemma TypesAreWellTyped()
    ensures TYPES.Keys == KINDS.Keys && PipelinePlans.WellTyped(KINDS, TYPES)
  {
    FitTogether();
    assert ITEMS["items"] == "expansion";
    var gather := TYPES["gather"].inputs;
    assert gather["parts"] == "collection";
  }

  // ---- Three shapes of input lists --------------------------------------------------------

  const UNBOUND: Matching := Matching(map[], {})

  lemma ResolvesNothing(deps: Manifests)
    ensures Resolves(deps, NOTHING, [], Ok(UNBOUND))
  {
    assert ResolvesBy(deps, NOTHING, [], Ok(UNBOUND), Ok(UNBOUND), Ok(UNBOUND));
  }

  /** A bare reference to the only output, for the only input. */
  lemma ResolvesOne(deps: Manifests, id: Id, o: string, t: string, n: string, inputType: string)
    requires id in deps && deps[id].outputs == map[o := t] && TypesCompatible(inputType, t)
    ensures Resolves(deps, map[n := inputType], [Bare(id)], Ok(Bind(UNBOUND, n, id, o, t)))
  {
    var inputs, refs, outputs := map[n := inputType], [Bare(id)], map[o := t];
    var m := Bind(UNBOUND, n, id, o, t);
    assert refs[..0] == [] && refs[..1] == refs && [o][..0] == [];
    ExplicitPassNext(deps, inputs, refs, 0, UNBOUND, Ok(UNBOUND));
    assert Candidates(inputs, UNBOUND, t) == {n};
    assert MatchStep(inputs, UNBOUND, id, o, t, Ok(m));
    assert MatchPass(inputs, UNBOUND, id, outputs, [], Ok(UNBOUND));
    assert MatchPass(inputs, UNBOUND, id, outputs, [o], Ok(m));
    assert Matches(inputs, UNBOUND, id, outputs, Ok(m));
    BarePassNext(deps, inputs, UNBOUND, refs, 0, UNBOUND, Ok(m));
    assert ResolvesBy(deps, inputs, refs, Ok(UNBOUND), Ok(m), Ok(m));
  }

  /** An explicit reference that names its input. */
  lemma StepNamed(deps: Manifests, inputs: map<string, string>, m: Matching, ref: InputRef)
    requires ref.Explicit? && ref.target != "" && ref.target in inputs
    requires ref.block in deps && ref.output in deps[ref.block].outputs
    requires TypesCompatible(inputs[ref.target], deps[ref.block].outputs[ref.output])
    ensures ExplicitStep(deps, inputs, m, ref,
              Ok(Bind(m, ref.target, ref.block, ref.output, deps[ref.block].outputs[ref.output])))
  {
    assert Goes(inputs, m, ref, deps[ref.block].outputs[ref.output], ref.target);
  }

  lemma ResolvesPair(deps: Manifests)
    requires 1 in deps && 2 in deps && deps[1].outputs == ITEMS && deps[2].outputs == ITEMS
    ensures exists m :: Resolves(deps, TYPES["pair"].inputs, BOTH_ITEMS, Ok(m))
  {
    FitTogether();
    var inputs, refs := TYPES["pair"].inputs, BOTH_ITEMS;
    var first := Bind(UNBOUND, "left", 1, "items", "expansion");
    var m := Bind(first, "right", 2, "items", "expansion");
    assert refs[..0] == [] && refs[..2] == refs;
    StepNamed(deps, inputs, UNBOUND, refs[0]);
    ExplicitPassNext(deps, inputs, refs, 0, UNBOUND, Ok(first));
    StepNamed(deps, inputs, first, refs[1]);
    ExplicitPassNext(deps, inputs, refs, 1, first, Ok(m));
    BarePassNext(deps, inputs, m, refs, 0, m, Ok(m));
    BarePassNext(deps, inputs, m, refs, 1, m, Ok(m));
    assert ResolvesBy(deps, inputs, refs, Ok(m), Ok(m), Ok(m));
  }

  // ---- The documents ------------------------------------------------------------------------

  lemma DepManifest(blocks: seq<Block>, b: Block, ref: InputRef, d: Block)
    requires UniqueIds(blocks) && d in blocks && d.name in TYPES && ref in b.inputs && DepId(ref) == d.id != NIL
    ensures var deps := PipelinePlans.DepManifests(blocks, TYPES, b); d.id in deps && deps[d.id] == TYPES[d.name]
  {
    PipelinePlans.ByIdAt(blocks, d);
  }

  lemma SourceResolves(blocks: seq<Block>, b: Block)
    requires b.inputs == [] && (b.name == "split" || b.name == "watch")
    ensures PipelinePlans.InputsResolve(blocks, TYPES, b)
  {
    assert TYPES[b.name].inputs == NOTHING;
    ResolvesNothing(PipelinePlans.DepManifests(blocks, TYPES, b));
  }

  lemma BareResolves(blocks: seq<Block>, b: Block, d: Block, o: string, t: string, n: string, inputType: string)
    requires UniqueIds(blocks) && d in blocks && d.name in TYPES && d.id != NIL
    requires b.inputs == [Bare(d.id)] && b.name in TYPES && TYPES[b.name].inputs == map[n := inputType]
    requires TYPES[d.name].outputs == map[o := t] && TypesCompatible(inputType, t)
    ensures PipelinePlans.InputsResolve(blocks, TYPES, b)
  {
    DepManifest(blocks, b, Bare(d.id), d);
    ResolvesOne(PipelinePlans.DepManifests(blocks, TYPES, b), d.id, o, t, n, inputType);
  }

  lemma ItemResolves(blocks: seq<Block>, b: Block, d: Block)
    requires UniqueIds(blocks) && d in blocks && d.name == "split" && d.id != NIL
    requires b.name == "work" && b.inputs == [Bare(d.id)]
    ensures PipelinePlans.InputsResolve(blocks, TYPES, b)
  {
    FitTogether();
    BareResolves(blocks, b, d, "items", "expansion", "item", "file");
  }

  lemma PartsResolve(blocks: seq<Block>, b: Block, d: Block)
    requires UniqueIds(blocks) && d in blocks && (d.name == "work" || d.name == "pair") && d.id != NIL
    requires b.name == "gather" && b.inputs == [Bare(d.id)]
    ensures PipelinePlans.InputsResolve(blocks, TYPES, b)
  {
    FitTogether();
    BareResolves(blocks, b, d, "result", "file", "parts", "collection");
  }

  lemma PairResolves(blocks: seq<Block>, b: Block, d: Block, d': Block)
    requires UniqueIds(blocks) && d in blocks && d' in blocks && d.name == "split" && d'.name == "split"
    requires d.id == 1 && d'.id == 2 && b.name == "pair" && b.inputs == BOTH_ITEMS
    ensures PipelinePlans.InputsResolve(blocks, TYPES, b)
  {
    DepManifest(blocks, b, BOTH_ITEMS[0], d);
    DepManifest(blocks, b, BOTH_ITEMS[1], d');
    ResolvesPair(PipelinePlans.DepManifests(blocks, TYPES, b));
  }

  lemma AllFour(bs: seq<Block>)
    requires |bs| == 4
    requires PipelinePlans.InputsResolve(bs, TYPES, bs[0]) && PipelinePlans.InputsResolve(bs, TYPES, bs[1])
    requires PipelinePlans.InputsResolve(bs, TYPES, bs[2]) && PipelinePlans.InputsResolve(bs, TYPES, bs[3])
    ensures forall b :: b in bs ==> PipelinePlans.InputsResolve(bs, TYPES, b)
  {
  }

  lemma MapReduceInputs(bs: seq<Block>)
    requires bs == MAP_REDUCE && UniqueIds(bs)
    ensures PipelinePlans.InputsResolve(bs, TYPES, bs[0]) && PipelinePlans.InputsResolve(bs, TYPES, bs[1])
    ensures PipelinePlans.InputsResolve(bs, TYPES, bs[2]) && PipelinePlans.InputsResolve(bs, TYPES, bs[3])
  {
    SourceResolves(bs, bs[0]);
    ItemResolves(bs, bs[1], bs[0]);
    PartsResolve(bs, bs[2], bs[1]);
    SourceResolves(bs, bs[3]);
  }

  lemma MapReduceIsValidated()
    ensures PipelinePlans.Validated(MAP_REDUCE, KINDS, TYPES)
  {
    MapReduceIsAccepted();
    TypesAreWellTyped();
    MapReduceInputs(MAP_REDUCE);
    AllFour(MAP_REDUCE);
  }

  lemma TwoMapsInputs(bs: seq<Block>)
    requires bs == TWO_MAPS && UniqueIds(bs)
    ensures PipelinePlans.InputsResolve(bs, TYPES, bs[0]) && PipelinePlans.InputsResolve(bs, TYPES, bs[1])
    ensures PipelinePlans.InputsResolve(bs, TYPES, bs[2]) && PipelinePlans.InputsResolve(bs, TYPES, bs[3])
  {
    SourceResolves(bs, bs[0]);
    SourceResolves(bs, bs[1]);
    PairResolves(bs, bs[2], bs[0], bs[1]);
    PartsResolve(bs, bs[3], bs[2]);
  }

  lemma TwoMapsIsValidated()
    ensures PipelinePlans.Validated(TWO_MAPS, KINDS, TYPES)
  {
    TwoMapsIsAccepted();
    TypesAreWellTyped();
    TwoMapsInputs(TWO_MAPS);
    AllFour(TWO_MAPS);
  }
}
