// Substituting short codes by block ids in a pipeline document
// (core/short_codes.go).  Documents are YAML trees; a resolved id is the text
// of a UUID, which never looks like a short code.
module ShortCodes {
  import opened Digraphs
  import opened Pipelines

  datatype Yaml =
    | Scalar(value: string)
    | Sequence(items: seq<Yaml>)
    | Mapping(fields: map<string, Yaml>)

  predicate IsLetter(c: char) {
    'A' <= c <= 'Z' || 'a' <= c <= 'z' || c == '_'
  }

  /** `@` and an identifier. */
  predicate IsShortCode(s: string) {
    && |s| >= 2 && s[0] == '@' && IsLetter(s[1])
    && forall i :: 2 <= i < |s| ==> IsLetter(s[i]) || '0' <= s[i] <= '9'
  }

  /** Letters, digits and underscores by their character codes, no digit first. */
  ghost predicate Word(w: string) {
    && w != [] && !(48 <= w[0] as int <= 57)
    && forall i :: 0 <= i < |w| ==> WordCode(w[i] as int)
  }

  predicate WordCode(c: int) {
    65 <= c <= 90 || 97 <= c <= 122 || c == 95 || 48 <= c <= 57
  }

  /** The short codes are `@` followed by such a word, and no other strings are. */
  lemma ShortCodesAre(s: string)
    ensures IsShortCode(s) <==> exists w :: Word(w) && s == "@" + w
  {
    if IsShortCode(s) {
      var w := s[1..];
      assert s == "@" + w;
      forall i | 0 <= i < |w| ensures WordCode(w[i] as int) { assert w[i] == s[i + 1]; }
    }
    if w :| Word(w) && s == "@" + w {
      assert s[0] == '@' && s[1] == w[0] && WordCode(w[0] as int);
      forall i | 2 <= i < |s|
        ensures IsLetter(s[i]) || '0' <= s[i] <= '9' { assert s[i] == w[i - 1] && WordCode(w[i - 1] as int); }
    }
  }

  type Uuid = s: string | !IsShortCode(s)

  type Bindings = map<string, Uuid>

  // ---- The positions that are visited ---------------------------------------------

  predicate Has(y: Yaml, key: string) {
    y.Mapping? && key in y.fields
  }

  function Put(y: Yaml, key: string, v: Yaml): Yaml
    requires Has(y, key)
  {
    Mapping(y.fields[key := v])
  }

  /** Applies f to every block id and every input reference, and to nothing else. */
  function OnScalar(f: string -> string, y: Yaml): Yaml {
    if y.Scalar? then Scalar(f(y.value)) else y
  }

  function OnItem(f: string -> string, y: Yaml): Yaml {
    if y.Scalar? then OnScalar(f, y)
    else if Has(y, "block") then Put(y, "block", OnScalar(f, y.fields["block"]))
    else y
  }

  function OnItems(f: string -> string, items: seq<Yaml>): seq<Yaml> {
    if items == [] then [] else OnItems(f, items[..|items| - 1]) + [OnItem(f, items[|items| - 1])]
  }

  function OnInputs(f: string -> string, y: Yaml): Yaml {
    if y.Sequence? then Sequence(OnItems(f, y.items)) else y
  }

  function OnId(f: string -> string, y: Yaml): Yaml {
    if Has(y, "id") then Put(y, "id", OnScalar(f, y.fields["id"])) else y
  }

  function OnReferences(f: string -> string, y: Yaml): Yaml {
    if Has(y, "inputs") then Put(y, "inputs", OnInputs(f, y.fields["inputs"])) else y
  }

  function OnBlock(f: string -> string, y: Yaml): Yaml {
    OnReferences(f, OnId(f, y))
  }

  function OnBlocks(f: string -> string, blocks: seq<Yaml>): seq<Yaml> {
    if blocks == [] then [] else OnBlocks(f, blocks[..|blocks| - 1]) + [OnBlock(f, blocks[|blocks| - 1])]
  }

  function OnRoot(f: string -> string, y: Yaml): Yaml {
    if Has(y, "blocks") && y.fields["blocks"].Sequence? then
      Put(y, "blocks", Sequence(OnBlocks(f, y.fields["blocks"].items)))
    else y
  }

  /** The scalars at those positions, in document order. */
  function RefsScalar(y: Yaml): seq<string> {
    if y.Scalar? then [y.value] else []
  }

  function RefsItem(y: Yaml): seq<string> {
    if y.Scalar? then RefsScalar(y)
    else if Has(y, "block") then RefsScalar(y.fields["block"])
    else []
  }

  function RefsItems(items: seq<Yaml>): seq<string> {
    if items == [] then [] else RefsItems(items[..|items| - 1]) + RefsItem(items[|items| - 1])
  }

  function RefsInputs(y: Yaml): seq<string> {
    if y.Sequence? then RefsItems(y.items) else []
  }

  function RefsId(y: Yaml): seq<string> {
    if Has(y, "id") then RefsScalar(y.fields["id"]) else []
  }

  function RefsReferences(y: Yaml): seq<string> {
    if Has(y, "inputs") then RefsInputs(y.fields["inputs"]) else []
  }

  function RefsBlock(y: Yaml): seq<string> {
    RefsId(y) + RefsReferences(y)
  }

  function RefsBlocks(blocks: seq<Yaml>): seq<string> {
    if blocks == [] then [] else RefsBlocks(blocks[..|blocks| - 1]) + RefsBlock(blocks[|blocks| - 1])
  }

  function RefsRoot(y: Yaml): seq<string> {
    if Has(y, "blocks") && y.fields["blocks"].Sequence? then RefsBlocks(y.fields["blocks"].items) else []
  }

  // ---- The positions, told of the document ---------------------------------------------

  ghost predicate OccursInItem(item: Yaml, s: string) {
    item == Scalar(s) || (item.Mapping? && "block" in item.fields && item.fields["block"] == Scalar(s))
  }

  ghost predicate OccursInBlock(block: Yaml, s: string) {
    && block.Mapping?
    && (("id" in block.fields && block.fields["id"] == Scalar(s))
        || ("inputs" in block.fields && block.fields["inputs"].Sequence?
            && exists j :: 0 <= j < |block.fields["inputs"].items| && OccursInItem(block.fields["inputs"].items[j], s)))
  }

  ghost predicate OccursInSome(blocks: seq<Yaml>, s: string) {
    exists i :: 0 <= i < |blocks| && OccursInBlock(blocks[i], s)
  }

  /** s is the id of a block, a bare reference or the block of an explicit one. */
  ghost predicate OccursIn(root: Yaml, s: string) {
    && root.Mapping? && "blocks" in root.fields && root.fields["blocks"].Sequence?
    && OccursInSome(root.fields["blocks"].items, s)
  }

  lemma OneMoreBlock(blocks: seq<Yaml>, y: Yaml, s: string)
    ensures OccursInSome(blocks + [y], s) <==> OccursInSome(blocks, s) || OccursInBlock(y, s)
  {
    var more := blocks + [y];
    assert more[|blocks|] == y;
    if i :| 0 <= i < |blocks| && OccursInBlock(blocks[i], s) { assert more[i] == blocks[i]; }
  }

  lemma {:induction false} ItemsOccur(items: seq<Yaml>, s: string)
    ensures s in RefsItems(items) <==> exists j :: 0 <= j < |items| && OccursInItem(items[j], s)
  {
    if items != [] {
      var n := |items| - 1;
      ItemsOccur(items[..n], s);
      assert s in RefsItem(items[n]) <==> OccursInItem(items[n], s);
      if j :| 0 <= j < |items| && OccursInItem(items[j], s) {
        if j < n { assert OccursInItem(items[..n][j], s); }
      }
    }
  }

  lemma BlockOccurs(block: Yaml, s: string)
    ensures s in RefsBlock(block) <==> OccursInBlock(block, s)
  {
    if block.Mapping? && "inputs" in block.fields && block.fields["inputs"].Sequence? {
      ItemsOccur(block.fields["inputs"].items, s);
    }
  }

  lemma {:induction false} BlocksOccur(blocks: seq<Yaml>, s: string)
    ensures s in RefsBlocks(blocks) <==> OccursInSome(blocks, s)
  {
    if blocks != [] {
      var n := |blocks| - 1;
      BlocksOccur(blocks[..n], s);
      BlockOccurs(blocks[n], s);
      OneMoreBlock(blocks[..n], blocks[n], s);
      assert blocks == blocks[..n] + [blocks[n]];
    }
  }

  /** The references that are visited are those. */
  lemma RefsOccur(root: Yaml, s: string)
    ensures s in RefsRoot(root) <==> OccursIn(root, s)
  {
    if root.Mapping? && "blocks" in root.fields && root.fields["blocks"].Sequence? {
      BlocksOccur(root.fields["blocks"].items, s);
    }
  }

  // ---- Laws of the substitution ------------------------------------------------------

  function All(f: string -> string, refs: seq<string>): seq<string> {
    seq(|refs|, i requires 0 <= i < |refs| => f(refs[i]))
  }

  lemma AllConcat(f: string -> string, a: seq<string>, b: seq<string>)
    ensures All(f, a + b) == All(f, a) + All(f, b)
  {
  }

  lemma RefsItemsSnoc(items: seq<Yaml>, y: Yaml)
    ensures RefsItems(items + [y]) == RefsItems(items) + RefsItem(y)
  {
    assert (items + [y])[..|items|] == items;
  }

  lemma RefsBlocksSnoc(blocks: seq<Yaml>, y: Yaml)
    ensures RefsBlocks(blocks + [y]) == RefsBlocks(blocks) + RefsBlock(y)
  {
    assert (blocks + [y])[..|blocks|] == blocks;
  }

  lemma {:induction false} ItemsRefs(f: string -> string, items: seq<Yaml>)
    ensures RefsItems(OnItems(f, items)) == All(f, RefsItems(items))
  {
    if items != [] {
      var n := |items| - 1;
      ItemsRefs(f, items[..n]);
      RefsItemsSnoc(OnItems(f, items[..n]), OnItem(f, items[n]));
      AllConcat(f, RefsItems(items[..n]), RefsItem(items[n]));
      ItemRefs(f, items[n]);
    }
  }

  lemma ItemRefs(f: string -> string, y: Yaml)
    ensures RefsItem(OnItem(f, y)) == All(f, RefsItem(y))
  {
  }

  lemma BlockRefs(f: string -> string, y: Yaml)
    ensures RefsBlock(OnBlock(f, y)) == All(f, RefsBlock(y))
  {
    var z := OnId(f, y);
    assert RefsId(z) == All(f, RefsId(y)) && RefsReferences(z) == RefsReferences(y);
    if Has(z, "inputs") && z.fields["inputs"].Sequence? { ItemsRefs(f, z.fields["inputs"].items); }
    assert RefsId(OnReferences(f, z)) == RefsId(z);
    assert RefsReferences(OnReferences(f, z)) == All(f, RefsReferences(z));
    AllConcat(f, RefsId(y), RefsReferences(y));
  }

  lemma {:induction false} BlocksRefs(f: string -> string, blocks: seq<Yaml>)
    ensures RefsBlocks(OnBlocks(f, blocks)) == All(f, RefsBlocks(blocks))
  {
    if blocks != [] {
      var n := |blocks| - 1;
      BlocksRefs(f, blocks[..n]);
      RefsBlocksSnoc(OnBlocks(f, blocks[..n]), OnBlock(f, blocks[n]));
      AllConcat(f, RefsBlocks(blocks[..n]), RefsBlock(blocks[n]));
      BlockRefs(f, blocks[n]);
    }
  }

  /** The substitution reaches exactly the visited positions. */
  lemma RootRefs(f: string -> string, y: Yaml)
    ensures RefsRoot(OnRoot(f, y)) == All(f, RefsRoot(y))
  {
    if Has(y, "blocks") && y.fields["blocks"].Sequence? { BlocksRefs(f, y.fields["blocks"].items); }
  }

  ghost predicate Composes(f: string -> string, g: string -> string, h: string -> string) {
    forall s :: h(s) == f(g(s))
  }

  lemma OnItemsSnoc(f: string -> string, items: seq<Yaml>, y: Yaml)
    ensures OnItems(f, items + [y]) == OnItems(f, items) + [OnItem(f, y)]
  {
    assert (items + [y])[..|items|] == items;
  }

  lemma OnBlocksSnoc(f: string -> string, blocks: seq<Yaml>, y: Yaml)
    ensures OnBlocks(f, blocks + [y]) == OnBlocks(f, blocks) + [OnBlock(f, y)]
  {
    assert (blocks + [y])[..|blocks|] == blocks;
  }

  lemma ItemCompose(f: string -> string, g: string -> string, h: string -> string, y: Yaml)
    requires Composes(f, g, h)
    ensures OnItem(f, OnItem(g, y)) == OnItem(h, y)
  {
  }

  lemma {:induction false} ItemsCompose(f: string -> string, g: string -> string, h: string -> string, items: seq<Yaml>)
    requires Composes(f, g, h)
    ensures OnItems(f, OnItems(g, items)) == OnItems(h, items)
  {
    if items != [] {
      var n := |items| - 1;
      ItemsCompose(f, g, h, items[..n]);
      OnItemsSnoc(f, OnItems(g, items[..n]), OnItem(g, items[n]));
      ItemCompose(f, g, h, items[n]);
    }
  }

  lemma BlockCompose(f: string -> string, g: string -> string, h: string -> string, y: Yaml)
    requires Composes(f, g, h)
    ensures OnBlock(f, OnBlock(g, y)) == OnBlock(h, y)
  {
    if Has(y, "inputs") && y.fields["inputs"].Sequence? { ItemsCompose(f, g, h, y.fields["inputs"].items); }
    if y.Mapping? {
      var once, twice, both := OnBlock(g, y), OnBlock(f, OnBlock(g, y)), OnBlock(h, y);
      assert once.fields.Keys == y.fields.Keys && twice.fields.Keys == y.fields.Keys &&
        both.fields.Keys == y.fields.Keys;
      forall k | k in y.fields ensures twice.fields[k] == both.fields[k] {
        if k != "id" && k != "inputs" {
          assert twice.fields[k] == y.fields[k] == both.fields[k];
        }
      }
      assert twice.fields == both.fields;
    }
  }

  lemma {:induction false} BlocksCompose(f: string -> string, g: string -> string, h: string -> string,
                                         blocks: seq<Yaml>)
    requires Composes(f, g, h)
    ensures OnBlocks(f, OnBlocks(g, blocks)) == OnBlocks(h, blocks)
  {
    if blocks != [] {
      var n := |blocks| - 1;
      BlocksCompose(f, g, h, blocks[..n]);
      OnBlocksSnoc(f, OnBlocks(g, blocks[..n]), OnBlock(g, blocks[n]));
      BlockCompose(f, g, h, blocks[n]);
    }
  }

  lemma RootCompose(f: string -> string, g: string -> string, h: string -> string, y: Yaml)
    requires Composes(f, g, h)
    ensures OnRoot(f, OnRoot(g, y)) == OnRoot(h, y)
  {
    if Has(y, "blocks") && y.fields["blocks"].Sequence? {
      BlocksCompose(f, g, h, y.fields["blocks"].items);
      assert OnRoot(f, OnRoot(g, y)).fields == OnRoot(h, y).fields;
    }
  }

  // ---- Bindings ------------------------------------------------------------------------

  function Renaming(b: Bindings): string -> string {
    s => if IsShortCode(s) && s in b then b[s] else s
  }

  function Renamed(b: Bindings, root: Yaml): Yaml {
    OnRoot(Renaming(b), root)
  }

  /** Everything but the visited positions. */
  function Rest(root: Yaml): Yaml {
    OnRoot(s => "", root)
  }

  datatype Learned = Learned(bindings: Bindings, supply: seq<Uuid>, ok: bool)

  /** The bindings after a list of references: each code not yet bound takes the
      next id of the supply, until that runs out. */
  function Learn(b: Bindings, supply: seq<Uuid>, refs: seq<string>): Learned {
    if refs == [] then Learned(b, supply, true)
    else
      var l := Learn(b, supply, refs[..|refs| - 1]);
      var code := refs[|refs| - 1];
      if !l.ok || !IsShortCode(code) || code in l.bindings then l
      else if l.supply == [] then l.(ok := false)
      else Learned(l.bindings[code := l.supply[0]], l.supply[1..], true)
  }

  lemma {:induction false} LearnConcat(b: Bindings, supply: seq<Uuid>, r1: seq<string>, r2: seq<string>)
    ensures var l := Learn(b, supply, r1);
            Learn(b, supply, r1 + r2) == if l.ok then Learn(l.bindings, l.supply, r2) else l
  {
    if r2 == [] {
      assert r1 + r2 == r1;
    } else {
      LearnConcat(b, supply, r1, r2[..|r2| - 1]);
      assert (r1 + r2)[..|r1 + r2| - 1] == r1 + r2[..|r2| - 1];
    }
  }

  lemma LearnPrefix(b: Bindings, supply: seq<Uuid>, r1: seq<string>, r2: seq<string>)
    requires r1 <= r2 && !Learn(b, supply, r1).ok
    ensures Learn(b, supply, r2) == Learn(b, supply, r1)
  {
    LearnConcat(b, supply, r1, r2[|r1|..]);
    assert r1 + r2[|r1|..] == r2;
  }

  ghost predicate Bound(b: Bindings, refs: seq<string>) {
    forall s :: s in refs && IsShortCode(s) ==> s in b
  }

  ghost predicate ExtendedBy(b: Bindings, b': Bindings) {
    forall c :: c in b ==> c in b' && b'[c] == b[c]
  }

  /** Existing bindings never change, every code met is bound, and only codes
      that were met are added. */
  lemma {:induction false} LearnExtends(b: Bindings, supply: seq<Uuid>, refs: seq<string>)
    ensures var l := Learn(b, supply, refs);
            && ExtendedBy(b, l.bindings) && (l.ok ==> Bound(l.bindings, refs))
            && (forall c :: c in l.bindings && c !in b ==> c in refs && IsShortCode(c))
  {
    if refs != [] {
      LearnExtends(b, supply, refs[..|refs| - 1]);
      assert refs == refs[..|refs| - 1] + [refs[|refs| - 1]];
    }
  }

  /** A lock that binds every code met is left alone and no id is drawn. */
  lemma {:induction false} LearnNothing(b: Bindings, supply: seq<Uuid>, refs: seq<string>)
    requires Bound(b, refs)
    ensures Learn(b, supply, refs) == Learned(b, supply, true)
  {
    if refs != [] {
      LearnNothing(b, supply, refs[..|refs| - 1]);
    }
  }

  /** Each new binding draws an id of its own from the supply. */
  lemma {:induction false} LearnDraws(b: Bindings, supply: seq<Uuid>, refs: seq<string>)
    requires NoDuplicates(supply)
    ensures var l := Learn(b, supply, refs);
            && (forall id :: id in l.supply ==> id in supply) && NoDuplicates(l.supply)
            && (forall c :: c in l.bindings && c !in b ==> l.bindings[c] in supply && l.bindings[c] !in l.supply)
            && (forall c, d :: c in l.bindings && d in l.bindings && c !in b && d !in b && c != d ==>
                  l.bindings[c] != l.bindings[d])
  {
    if refs != [] {
      LearnDraws(b, supply, refs[..|refs| - 1]);
      var l := Learn(b, supply, refs[..|refs| - 1]);
      if l.supply != [] {
        assert l.supply == [l.supply[0]] + l.supply[1..];
        assert l.supply[0] !in l.supply[1..];
      }
    }
  }

  // ---- The renamed document, position by position ----------------------------------------

  /** A bound code is replaced by its id, anything else stays. */
  ghost predicate Replaces(b: Bindings, y: Yaml, y': Yaml) {
    if y.Scalar? && y.value in b && (exists w :: Word(w) && y.value == "@" + w) then y' == Scalar(b[y.value])
    else y' == y
  }

  ghost predicate SameBut(y: Yaml, y': Yaml, keys: set<string>) {
    && y.Mapping? && y'.Mapping? && y'.fields.Keys == y.fields.Keys
    && forall k :: k in y.fields && k !in keys ==> y'.fields[k] == y.fields[k]
  }

  ghost predicate ReplacesInItem(b: Bindings, y: Yaml, y': Yaml) {
    match y
    case Scalar(_) => Replaces(b, y, y')
    case Sequence(_) => y' == y
    case Mapping(_) =>
      SameBut(y, y', {"block"}) && ("block" in y.fields ==> Replaces(b, y.fields["block"], y'.fields["block"]))
  }

  ghost predicate ReplacesInInputs(b: Bindings, y: Yaml, y': Yaml) {
    if y.Sequence? then
      && y'.Sequence? && |y'.items| == |y.items|
      && forall j :: 0 <= j < |y.items| ==> ReplacesInItem(b, y.items[j], y'.items[j])
    else y' == y
  }

  ghost predicate ReplacesInBlock(b: Bindings, y: Yaml, y': Yaml) {
    if y.Mapping? then
      && SameBut(y, y', {"id", "inputs"})
      && ("id" in y.fields ==> Replaces(b, y.fields["id"], y'.fields["id"]))
      && ("inputs" in y.fields ==> ReplacesInInputs(b, y.fields["inputs"], y'.fields["inputs"]))
    else y' == y
  }

  /** Block ids, bare references and the blocks of explicit ones are replaced, and
      nothing else: arguments, names and the document's own id stay as they were. */
  ghost predicate ReplacesIn(b: Bindings, root: Yaml, root': Yaml) {
    if root.Mapping? && "blocks" in root.fields && root.fields["blocks"].Sequence? then
      && SameBut(root, root', {"blocks"})
      && root'.fields["blocks"].Sequence? && |root'.fields["blocks"].items| == |root.fields["blocks"].items|
      && forall i :: 0 <= i < |root.fields["blocks"].items| ==>
           ReplacesInBlock(b, root.fields["blocks"].items[i], root'.fields["blocks"].items[i])
    else root' == root
  }

  lemma ScalarReplaced(b: Bindings, y: Yaml)
    ensures Replaces(b, y, OnScalar(Renaming(b), y))
  {
    if y.Scalar? { ShortCodesAre(y.value); }
  }

  lemma {:induction false} ItemsReplaced(b: Bindings, items: seq<Yaml>, j: nat)
    requires j < |items|
    ensures var out := OnItems(Renaming(b), items);
            |out| == |items| && ReplacesInItem(b, items[j], out[j])
  {
    var n := |items| - 1;
    if j < n { ItemsReplaced(b, items[..n], j); } else if n > 0 { ItemsReplaced(b, items[..n], 0); }
    ScalarReplaced(b, items[n]);
    if Has(items[n], "block") { ScalarReplaced(b, items[n].fields["block"]); }
  }

  lemma BlockReplaced(b: Bindings, y: Yaml)
    ensures ReplacesInBlock(b, y, OnBlock(Renaming(b), y))
  {
    if Has(y, "id") { ScalarReplaced(b, y.fields["id"]); }
    if Has(y, "inputs") && y.fields["inputs"].Sequence? {
      var items := y.fields["inputs"].items;
      forall j | 0 <= j < |items|
        ensures |OnItems(Renaming(b), items)| == |items|
        ensures ReplacesInItem(b, items[j], OnItems(Renaming(b), items)[j])
      {
        ItemsReplaced(b, items, j);
      }
    }
  }

  lemma {:induction false} BlocksReplaced(b: Bindings, blocks: seq<Yaml>, i: nat)
    requires i < |blocks|
    ensures var out := OnBlocks(Renaming(b), blocks);
            |out| == |blocks| && ReplacesInBlock(b, blocks[i], out[i])
  {
    var n := |blocks| - 1;
    if i < n { BlocksReplaced(b, blocks[..n], i); } else if n > 0 { BlocksReplaced(b, blocks[..n], 0); }
    BlockReplaced(b, blocks[n]);
  }

  lemma RenamedReplaces(b: Bindings, root: Yaml)
    ensures ReplacesIn(b, root, Renamed(b, root))
  {
    if Has(root, "blocks") && root.fields["blocks"].Sequence? {
      var blocks := root.fields["blocks"].items;
      forall i | 0 <= i < |blocks|
        ensures |OnBlocks(Renaming(b), blocks)| == |blocks|
        ensures ReplacesInBlock(b, blocks[i], OnBlocks(Renaming(b), blocks)[i])
      {
        BlocksReplaced(b, blocks, i);
      }
    }
  }

  /** The codes at the positions that are visited. */
  ghost predicate CodeOf(root: Yaml, s: string) {
    OccursIn(root, s) && exists w :: Word(w) && s == "@" + w
  }

  /** Exactly the codes of the document are added to the lock. */
  lemma LearnsCodes(b: Bindings, supply: seq<Uuid>, root: Yaml)
    requires Learn(b, supply, RefsRoot(root)).ok
    ensures forall s :: s in Learn(b, supply, RefsRoot(root)).bindings <==> s in b || CodeOf(root, s)
  {
    var refs := RefsRoot(root);
    LearnExtends(b, supply, refs);
    forall s ensures s in Learn(b, supply, refs).bindings <==> s in b || CodeOf(root, s) {
      RefsOccur(root, s);
      ShortCodesAre(s);
    }
  }

  /** And no code is left in it. */
  lemma NoCodeOccurs(b: Bindings, supply: seq<Uuid>, root: Yaml)
    requires Learn(b, supply, RefsRoot(root)).ok
    ensures forall s :: !CodeOf(Renamed(Learn(b, supply, RefsRoot(root)).bindings, root), s)
  {
    var saved := Learn(b, supply, RefsRoot(root)).bindings;
    LearnExtends(b, supply, RefsRoot(root));
    NoCodesLeft(saved, root);
    forall s ensures !CodeOf(Renamed(saved, root), s) {
      RefsOccur(Renamed(saved, root), s);
      ShortCodesAre(s);
    }
  }

  lemma NoCodesLeft(b: Bindings, root: Yaml)
    requires Bound(b, RefsRoot(root))
    ensures forall s :: s in RefsRoot(Renamed(b, root)) ==> !IsShortCode(s)
  {
    RootRefs(Renaming(b), root);
    var refs := RefsRoot(root);
    forall i | 0 <= i < |refs| ensures !IsShortCode(Renaming(b)(refs[i])) {
      assert refs[i] in refs;
    }
  }

  // ---- The walk ------------------------------------------------------------------------

  class Lockfile {
    var bindings: Bindings

    constructor (b: Bindings)
      ensures bindings == b
    {
      bindings := b;
    }
  }

  /** The closure that binds codes: the lock it writes to, the id generator, and
      whether anything was added. */
  class Resolver {
    const lock: Lockfile
    var upcoming: seq<Uuid>
    var changed: bool

    constructor (lock: Lockfile, supply: seq<Uuid>)
      ensures this.lock == lock && upcoming == supply && !changed
    {
      this.lock := lock;
      upcoming := supply;
      changed := false;
    }

    ghost function Now(ok: bool): Learned
      reads this, lock
    {
      Learned(lock.bindings, upcoming, ok)
    }

    /** The walk has learned `refs` and nothing else, and kept track of changes. */
    twostate predicate Learns(refs: seq<string>, ok: bool)
      reads this, lock
    {
      && Now(ok) == Learn(old(lock.bindings), old(upcoming), refs)
      && ExtendedBy(old(lock.bindings), lock.bindings)
      && (changed <==> old(changed) || lock.bindings != old(lock.bindings))
    }

    method Resolve(code: string) returns (r: Result<Uuid>)
      requires IsShortCode(code)
      modifies this, lock
      ensures Learns([code], r.Ok?)
      ensures r.Ok? ==> code in lock.bindings && r.value == lock.bindings[code]
    {
      assert [code][..0] == [];
      if code in lock.bindings {
        return Ok(lock.bindings[code]);
      }
      if upcoming == [] {
        return Err("generating UUIDv7");
      }
      var id := upcoming[0];
      upcoming := upcoming[1..];
      lock.bindings := lock.bindings[code := id];
      changed := true;
      return Ok(id);
    }

    method ResolveScalar(y: Yaml, ghost final: Bindings) returns (ok: bool, out: Yaml)
      modifies this, lock
      ensures Learns(RefsScalar(y), ok)
      ensures ok && ExtendedBy(lock.bindings, final) ==> out == OnScalar(Renaming(final), y)
    {
      ok, out := true, y;
      if y.Scalar? {
        assert RefsScalar(y)[..0] == [];
        if IsShortCode(y.value) {
          var r := Resolve(y.value);
          ok := r.Ok?;
          if ok {
            out := Scalar(r.value);
          }
        }
      }
    }

    method ResolveItem(y: Yaml, ghost final: Bindings) returns (ok: bool, out: Yaml)
      modifies this, lock
      ensures Learns(RefsItem(y), ok)
      ensures ok && ExtendedBy(lock.bindings, final) ==> out == OnItem(Renaming(final), y)
    {
      ok, out := true, y;
      match y
      case Scalar(_) =>
        ok, out := ResolveScalar(y, final);
      case Mapping(_) =>
        if Has(y, "block") {
          var v;
          ok, v := ResolveScalar(y.fields["block"], final);
          out := Put(y, "block", v);
        }
      case Sequence(_) =>
    }

    method ResolveItems(items: seq<Yaml>, ghost final: Bindings) returns (ok: bool, out: seq<Yaml>)
      modifies this, lock
      ensures Learns(RefsItems(items), ok)
      ensures ok && ExtendedBy(lock.bindings, final) ==> out == OnItems(Renaming(final), items)
    {
      ok, out := true, [];
      for i := 0 to |items|
        invariant ok && Learns(RefsItems(items[..i]), true)
        invariant ExtendedBy(lock.bindings, final) ==> out == OnItems(Renaming(final), items[..i])
      {
        ghost var before := Now(true);
        var item;
        ok, item := ResolveItem(items[i], final);
        assert items[..i + 1][..i] == items[..i];
        LearnTwice(old(lock.bindings), old(upcoming), RefsItems(items[..i]), RefsItem(items[i]), before, Now(ok));
        if !ok {
          RefsItemsPrefix(items, i + 1);
          LearnPrefix(old(lock.bindings), old(upcoming), RefsItems(items[..i + 1]), RefsItems(items));
          return;
        }
        out := out + [item];
      }
      assert items[..|items|] == items;
    }

    method ResolveBlock(y: Yaml, ghost final: Bindings) returns (ok: bool, out: Yaml)
      modifies this, lock
      ensures Learns(RefsBlock(y), ok)
      ensures ok && ExtendedBy(lock.bindings, final) ==> out == OnBlock(Renaming(final), y)
    {
      ok, out := true, y;
      if Has(y, "id") {
        var v;
        ok, v := ResolveScalar(y.fields["id"], final);
        out := Put(y, "id", v);
      }
      ghost var mid := Now(ok);
      assert Learns(RefsId(y), ok);
      if !ok {
        LearnPrefix(old(lock.bindings), old(upcoming), RefsId(y), RefsBlock(y));
        return;
      }
      if Has(out, "inputs") && out.fields["inputs"].Sequence? {
        var items;
        ok, items := ResolveItems(out.fields["inputs"].items, final);
        out := Put(out, "inputs", Sequence(items));
      }
      LearnTwice(old(lock.bindings), old(upcoming), RefsId(y), RefsReferences(y), mid, Now(ok));
    }

    method ResolveBlocks(blocks: seq<Yaml>, ghost final: Bindings) returns (ok: bool, out: seq<Yaml>)
      modifies this, lock
      ensures Learns(RefsBlocks(blocks), ok)
      ensures ok && ExtendedBy(lock.bindings, final) ==> out == OnBlocks(Renaming(final), blocks)
    {
      ok, out := true, [];
      for i := 0 to |blocks|
        invariant ok && Learns(RefsBlocks(blocks[..i]), true)
        invariant ExtendedBy(lock.bindings, final) ==> out == OnBlocks(Renaming(final), blocks[..i])
      {
        ghost var before := Now(true);
        var block;
        ok, block := ResolveBlock(blocks[i], final);
        BlocksNext(Renaming(final), blocks, i);
        LearnTwice(old(lock.bindings), old(upcoming), RefsBlocks(blocks[..i]), RefsBlock(blocks[i]), before, Now(ok));
        if !ok {
          RefsBlocksPrefix(blocks, i + 1);
          LearnPrefix(old(lock.bindings), old(upcoming), RefsBlocks(blocks[..i + 1]), RefsBlocks(blocks));
          return;
        }
        out := out + [block];
      }
      assert blocks[..|blocks|] == blocks;
    }
  }

  /** A short code as the pipeline's own id is refused. */
  predicate CodedId(root: Yaml) {
    Has(root, "id") && root.fields["id"].Scalar? && IsShortCode(root.fields["id"].value)
  }

  predicate WellShaped(root: Yaml) {
    root.Mapping? && !CodedId(root) && (Has(root, "blocks") ==> root.fields["blocks"].Sequence?)
  }

  /** What is accepted: a mapping whose own id is no code, and whose blocks, if
      there are any, are a list. */
  lemma WellShapedMeans(root: Yaml)
    ensures WellShaped(root) <==>
            && root.Mapping?
            && ("id" in root.fields ==> forall w :: Word(w) ==> root.fields["id"] != Scalar("@" + w))
            && ("blocks" in root.fields ==> root.fields["blocks"].Sequence?)
  {
    if root.Mapping? && "id" in root.fields && root.fields["id"].Scalar? { ShortCodesAre(root.fields["id"].value); }
  }

  lemma ResolvedDocument(b: Bindings, supply: seq<Uuid>, root: Yaml)
    requires Learn(b, supply, RefsRoot(root)).ok
    ensures var l := Learn(b, supply, RefsRoot(root));
            && ReplacesIn(l.bindings, root, Renamed(l.bindings, root))
            && (forall s :: s in l.bindings <==> s in b || CodeOf(root, s))
            && (forall s :: !CodeOf(Renamed(l.bindings, root), s))
  {
    RenamedReplaces(Learn(b, supply, RefsRoot(root)).bindings, root);
    LearnsCodes(b, supply, root);
    NoCodeOccurs(b, supply, root);
  }

  /** The bindings are extended just as the references demand, `changed` tells
      whether they were, and on success the document is renamed along them. */
  method ResolveShortCodes(root: Yaml, lock: Lockfile, supply: seq<Uuid>) returns (changed: bool, r: Result<Yaml>)
    modifies lock
    ensures var l := Learn(old(lock.bindings), supply, RefsRoot(root));
            if WellShaped(root) then lock.bindings == l.bindings && (r.Ok? <==> l.ok)
            else r.Err? && lock.bindings == old(lock.bindings)
    ensures r.Ok? ==> r.value == Renamed(lock.bindings, root) && ReplacesIn(lock.bindings, root, r.value)
    ensures r.Ok? ==> forall s :: s in lock.bindings <==> s in old(lock.bindings) || CodeOf(root, s)
    ensures r.Ok? ==> forall s :: !CodeOf(r.value, s)
    ensures changed <==> lock.bindings != old(lock.bindings)
  {
    if !root.Mapping? {
      return false, Err("pipeline root must be a YAML mapping");
    }
    if "id" in root.fields && root.fields["id"].Scalar? && IsShortCode(root.fields["id"].value) {
      return false, Err("short code is not allowed on the pipeline-level id");
    }
    if "blocks" !in root.fields {
      ResolvedDocument(lock.bindings, supply, root);
      return false, Ok(root);
    }
    var blocksNode := root.fields["blocks"];
    if !blocksNode.Sequence? {
      return false, Err("`blocks` must be a sequence");
    }
    ghost var final := Learn(lock.bindings, supply, RefsRoot(root)).bindings;
    var resolver := new Resolver(lock, supply);
    var ok, blocks := resolver.ResolveBlocks(blocksNode.items, final);
    changed := resolver.changed;
    if !ok {
      return changed, Err("generating UUIDv7");
    }
    r := Ok(Put(root, "blocks", Sequence(blocks)));
    ResolvedDocument(old(lock.bindings), supply, root);
  }

  // ---- Steps of the walk ------------------------------------------------------------------

  lemma {:induction false} RefsItemsPrefix(items: seq<Yaml>, i: nat)
    requires i <= |items|
    ensures RefsItems(items[..i]) <= RefsItems(items)
  {
    if i < |items| {
      RefsItemsPrefix(items[..|items| - 1], i);
      assert items[..|items| - 1][..i] == items[..i];
    } else {
      assert items[..i] == items;
    }
  }

  lemma {:induction false} RefsBlocksPrefix(blocks: seq<Yaml>, i: nat)
    requires i <= |blocks|
    ensures RefsBlocks(blocks[..i]) <= RefsBlocks(blocks)
  {
    if i < |blocks| {
      RefsBlocksPrefix(blocks[..|blocks| - 1], i);
      assert blocks[..|blocks| - 1][..i] == blocks[..i];
    } else {
      assert blocks[..i] == blocks;
    }
  }

  lemma BlocksNext(f: string -> string, blocks: seq<Yaml>, i: nat)
    requires i < |blocks|
    ensures RefsBlocks(blocks[..i + 1]) == RefsBlocks(blocks[..i]) + RefsBlock(blocks[i])
    ensures OnBlocks(f, blocks[..i + 1]) == OnBlocks(f, blocks[..i]) + [OnBlock(f, blocks[i])]
  {
    assert blocks[..i + 1][..i] == blocks[..i];
  }

  /** Learning in two stages. */
  lemma LearnTwice(b: Bindings, supply: seq<Uuid>, r1: seq<string>, r2: seq<string>, mid: Learned, after: Learned)
    requires mid == Learn(b, supply, r1) && mid.ok && after == Learn(mid.bindings, mid.supply, r2)
    ensures after == Learn(b, supply, r1 + r2)
    ensures ExtendedBy(b, mid.bindings) && ExtendedBy(mid.bindings, after.bindings) && ExtendedBy(b, after.bindings)
    ensures after.bindings != b <==> mid.bindings != b || after.bindings != mid.bindings
  {
    LearnConcat(b, supply, r1, r2);
    LearnExtends(b, supply, r1);
    LearnExtends(mid.bindings, mid.supply, r2);
    if after.bindings == b {
      assert mid.bindings == b;
    }
  }

  // ---- What a resolution preserves -----------------------------------------------------------

  /** Arguments, outputs, names and every other part of the document stay as they were. */
  lemma RestUntouched(b: Bindings, root: Yaml)
    ensures Rest(Renamed(b, root)) == Rest(root)
    ensures RefsRoot(Renamed(b, root)) == All(Renaming(b), RefsRoot(root))
  {
    RootRefs(Renaming(b), root);
    RootCompose(s => "", Renaming(b), s => "", root);
  }

  /** Resolving the original again with the saved lock gives the same document,
      resolving the resolved document changes nothing, and neither needs an id. */
  lemma ResolvingAgain(b: Bindings, supply: seq<Uuid>, root: Yaml, later: seq<Uuid>)
    requires Learn(b, supply, RefsRoot(root)).ok
    ensures var saved := Learn(b, supply, RefsRoot(root)).bindings;
            && Learn(saved, later, RefsRoot(root)) == Learned(saved, later, true)
            && Learn(saved, later, RefsRoot(Renamed(saved, root))) == Learned(saved, later, true)
            && Renamed(saved, Renamed(saved, root)) == Renamed(saved, root)
  {
    var saved := Learn(b, supply, RefsRoot(root)).bindings;
    LearnExtends(b, supply, RefsRoot(root));
    LearnNothing(saved, later, RefsRoot(root));
    NoCodesLeft(saved, root);
    LearnNothing(saved, later, RefsRoot(Renamed(saved, root)));
    RootCompose(Renaming(saved), Renaming(saved), Renaming(saved), root);
  }

  /** Two ids or references are equal in the document exactly when they are equal in its renaming. */
  ghost predicate KeepsEqualities(f: string -> string, refs: seq<string>) {
    forall s, t :: s in refs && t in refs ==> (f(s) == f(t) <==> s == t)
  }

  ghost predicate FreshFor(b: Bindings, supply: seq<Uuid>, refs: seq<string>) {
    && NoDuplicates(supply)
    && (forall id :: id in supply ==> id !in refs && id !in b.Values)
  }

  /** The lock binds no two codes of the document to one id, and none to an id
      the document already uses. */
  ghost predicate LockFits(b: Bindings, refs: seq<string>) {
    && (forall c, d ::
          c in refs && d in refs && IsShortCode(c) && IsShortCode(d) && c in b && d in b && b[c] == b[d] ==> c == d)
    && (forall c :: c in refs && IsShortCode(c) && c in b ==> b[c] !in refs)
  }

  lemma LearnedApart(b: Bindings, supply: seq<Uuid>, refs: seq<string>, c: string, d: string)
    requires FreshFor(b, supply, refs) && LockFits(b, refs) && Learn(b, supply, refs).ok
    requires c in refs && d in refs && c != d && IsShortCode(c)
    ensures Renaming(Learn(b, supply, refs).bindings)(c) != Renaming(Learn(b, supply, refs).bindings)(d)
  {
    LearnExtends(b, supply, refs);
    LearnDraws(b, supply, refs);
    var l := Learn(b, supply, refs);
    if c in b { assert l.bindings[c] in b.Values; }
    if d in b { assert l.bindings[d] in b.Values; }
  }

  lemma FitKeepsEqualities(b: Bindings, supply: seq<Uuid>, refs: seq<string>)
    requires FreshFor(b, supply, refs) && Learn(b, supply, refs).ok && LockFits(b, refs)
    ensures KeepsEqualities(Renaming(Learn(b, supply, refs).bindings), refs)
  {
    var f := Renaming(Learn(b, supply, refs).bindings);
    forall s, t | s in refs && t in refs && s != t ensures f(s) != f(t) {
      if IsShortCode(s) {
        LearnedApart(b, supply, refs, s, t);
      } else if IsShortCode(t) {
        LearnedApart(b, supply, refs, t, s);
      }
    }
  }

  lemma EqualitiesNeedFit(b: Bindings, b': Bindings, refs: seq<string>)
    requires ExtendedBy(b, b') && KeepsEqualities(Renaming(b'), refs)
    ensures LockFits(b, refs)
  {
    var f := Renaming(b');
    forall c | c in refs && IsShortCode(c) && c in b ensures b[c] !in refs {
      assert f(c) == b[c] && f(b[c]) == b[c];
    }
    forall c, d | c in refs && d in refs && IsShortCode(c) && IsShortCode(d) && c in b && d in b && b[c] == b[d]
      ensures c == d
    {
      assert f(c) == f(d);
    }
  }

  /** With fresh ids, resolution is a consistent renaming exactly when the lock
      fits the document: then repeated ids and the dependency graph survive it. */
  lemma ConsistentRenamingIff(b: Bindings, supply: seq<Uuid>, refs: seq<string>)
    requires FreshFor(b, supply, refs) && Learn(b, supply, refs).ok
    ensures KeepsEqualities(Renaming(Learn(b, supply, refs).bindings), refs) <==> LockFits(b, refs)
  {
    if LockFits(b, refs) {
      FitKeepsEqualities(b, supply, refs);
    }
    if KeepsEqualities(Renaming(Learn(b, supply, refs).bindings), refs) {
      LearnExtends(b, supply, refs);
      EqualitiesNeedFit(b, Learn(b, supply, refs).bindings, refs);
    }
  }
}
