// The entities of a pipeline document: block ids, input references, block
// kinds and blocks (core/types.go).
module Pipelines {
  /** A UUID.  The zero UUID stands for "no block". */
  type Id = nat

  const NIL: Id := 0

  datatype Option<+T> = None | Some(value: T)

  datatype Result<+T> = Ok(value: T) | Err(reason: string)

  /** A bare reference names a block; an explicit one also names the output it
      takes and, optionally (empty when absent), the input it is meant for. */
  datatype InputRef =
    | Bare(id: Id)
    | Explicit(block: Id, output: string, target: string)

  function DepId(r: InputRef): Id {
    if r.Explicit? then r.block else r.id
  }

  datatype Kind = Standard | Map | Reduce

  datatype Block = Block(id: Id, name: string, inputs: seq<InputRef>)

  /** The kind of every block type whose manifest is known. */
  type Kinds = map<string, Kind>

  function Ids(blocks: seq<Block>): set<Id> {
    set b | b in blocks :: b.id
  }

  ghost predicate UniqueIds(blocks: seq<Block>) {
    forall i, j :: 0 <= i < j < |blocks| ==> blocks[i].id != blocks[j].id
  }

  ghost predicate NoNilReference(blocks: seq<Block>) {
    forall b, r :: b in blocks && r in b.inputs ==> DepId(r) != NIL
  }

  /** Every reference that is not nil names a block of the pipeline. */
  ghost predicate ReferencesKnown(blocks: seq<Block>) {
    forall b, r :: b in blocks && r in b.inputs ==> DepId(r) == NIL || DepId(r) in Ids(blocks)
  }

  function Lookup<T>(m: map<Id, seq<T>>, k: Id): seq<T> {
    if k in m then m[k] else []
  }
}
