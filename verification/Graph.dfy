/** Change graphs: node references, operations and changes. */
module Graphs {
  import opened Model
  import opened Trees
  import T = TextDiff

  /** A node of the base tree or an inserted node, by its arena index. */
  datatype NodeRef = A(i: nat) | B(j: nat)

  datatype Anchor = At(node: NodeRef) | Start

  datatype Op =
    | Move(node: NodeRef, parent: NodeRef, after: seq<Anchor>)
    | Insert(node: NodeRef, parent: NodeRef, after: seq<Anchor>, shell: Shell)
    | Delete(node: NodeRef)
    | Modify(node: NodeRef, edits: seq<T.Edit>, before: Text, now: Text)
    | Format(node: NodeRef, oldRuns: seq<Run>, newRuns: seq<Run>)
    | SetAttrs(node: NodeRef, oldAttrs: Attrs, newAttrs: Attrs)
  {
    predicate IsPlacement() { Move? || Insert? }

    predicate IsPayload() { Modify? || Format? || SetAttrs? }
  }

  /** Change ids are digests of the operation; a digest is modelled by what it digests. */
  datatype ChangeId = Digest(op: Op)

  datatype Change = Change(id: ChangeId, op: Op)

  /** `source` is the snapshot the graph applies to. */
  datatype Graph = Graph(v: nat, algo: nat, source: Doc, changes: seq<Change>, explicitConflicts: seq<seq<ChangeId>>)

  const GRAPH_VERSION := 2
  const ALGO_VERSION := 2
}
