/** The Parquet manifest: top-level fields and the leaf columns under them. */
module Schema {

  datatype SchemaField = Leaf(col: int) | Group(children: seq<SchemaField>)

  /** `fieldLeaves`: the leaf columns under one field, in schema order. */
  function FieldLeaves(sf: SchemaField): seq<int> {
    match sf
    case Leaf(col) => [col]
    case Group(children) => ChildLeaves(children)
  }

  function ChildLeaves(fields: seq<SchemaField>): seq<int> {
    if fields == [] then [] else FieldLeaves(fields[0]) + ChildLeaves(fields[1..])
  }

  /** The field has the leaf somewhere below it. */
  predicate HasLeaf(sf: SchemaField, col: int) {
    match sf
    case Leaf(c) => c == col
    case Group(children) => exists k :: 0 <= k < |children| && HasLeaf(children[k], col)
  }

  function LeafCount(sf: SchemaField): nat {
    match sf
    case Leaf(_) => 1
    case Group(children) => ChildLeafCount(children)
  }

  function ChildLeafCount(fields: seq<SchemaField>): nat {
    if fields == [] then 0 else LeafCount(fields[0]) + ChildLeafCount(fields[1..])
  }

  /** However deep the nesting, no leaf is missed, none is made up and none is repeated. */
  lemma {:induction false} FieldLeavesComplete(sf: SchemaField, col: int)
    ensures col in FieldLeaves(sf) <==> HasLeaf(sf, col)
    ensures |FieldLeaves(sf)| == LeafCount(sf)
  {
    match sf
    case Leaf(_) =>
    case Group(children) => ChildLeavesComplete(children, col);
  }

  lemma {:induction false} ChildLeavesComplete(fields: seq<SchemaField>, col: int)
    ensures col in ChildLeaves(fields) <==> exists k :: 0 <= k < |fields| && HasLeaf(fields[k], col)
    ensures |ChildLeaves(fields)| == ChildLeafCount(fields)
  {
    if fields != [] {
      FieldLeavesComplete(fields[0], col);
      ChildLeavesComplete(fields[1..], col);
      if k :| 0 <= k < |fields| && HasLeaf(fields[k], col) {
        assert k > 0 ==> HasLeaf(fields[1..][k - 1], col);
      }
    }
  }

  /** In schema order: the leaves of earlier fields come before those of later ones, and each field gives its own. */
  lemma {:induction false} LeavesInOrder(before: seq<SchemaField>, after: seq<SchemaField>, sf: SchemaField)
    ensures ChildLeaves(before + after) == ChildLeaves(before) + ChildLeaves(after)
    ensures ChildLeaves([sf]) == FieldLeaves(sf)
  {
    assert [sf][1..] == [];
    if before == [] {
      assert before + after == after;
    } else {
      LeavesInOrder(before[1..], after, sf);
      assert (before + after)[1..] == before[1..] + after;
    }
  }
}
