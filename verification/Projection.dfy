/** Exact column projection: the Parquet reader, the Iceberg scan plan and `datafusion.ProjectReader`. */
module Projection {
  import opened Wrappers
  import opened Values
  import opened Schema
  import opened Limit

  // ----- ProjectReader -----

  predicate InRange(indices: seq<int>, n: int) {
    forall i | 0 <= i < |indices| :: 0 <= indices[i] < n
  }

  function ProjectRow(row: Row, indices: seq<int>): Row {
    seq(|indices|, i requires 0 <= i < |indices| => CellAt(row, indices[i]))
  }

  /** Zero columns still leave the row count. */
  function ProjectBatch(batch: Batch<Row>, indices: seq<int>): Batch<Row> {
    seq(|batch|, k requires 0 <= k < |batch| => ProjectRow(batch[k], indices))
  }

  /** What a scan delivers through an optional re-ordering. */
  function Delivered(read: seq<Batch<Row>>, perm: Option<seq<int>>): seq<Batch<Row>> {
    if perm.None? then read
    else seq(|read|, k requires 0 <= k < |read| => ProjectBatch(read[k], perm.value))
  }

  /** The row has, position by position, the values of the source row at the indices. */
  ghost predicate Picks(row: Row, source: Row, indices: seq<int>) {
    && |row| == |indices|
    && forall i | 0 <= i < |indices| && 0 <= indices[i] < |source| :: row[i] == source[indices[i]]
  }

  /** Row for row; without indices the rows are the same. */
  ghost predicate PicksRows(rows: seq<Row>, source: seq<Row>, indices: Option<seq<int>>) {
    && |rows| == |source| && (indices.None? ==> rows == source)
    && (indices.Some? ==> forall r | 0 <= r < |rows| :: Picks(rows[r], source[r], indices.value))
  }

  /** Batch for batch. */
  ghost predicate PicksBatches(delivered: seq<Batch<Row>>, source: seq<Batch<Row>>, indices: Option<seq<int>>) {
    |delivered| == |source| && forall k | 0 <= k < |delivered| :: PicksRows(delivered[k], source[k], indices)
  }

  lemma DeliveredPicks(read: seq<Batch<Row>>, perm: Option<seq<int>>)
    ensures PicksBatches(Delivered(read, perm), read, perm)
  {
  }

  /** Every row has one value per field of the schema. */
  ghost predicate FitsSchema(batches: seq<Batch<Row>>, numFields: nat) {
    forall k, r | 0 <= k < |batches| && r in batches[k] :: |r| == numFields
  }

  class ProjectedReader {
    const inner: BatchReader<Row>
    const indices: seq<int>
    var cur: Option<Batch<Row>>
    ghost const numFields: nat
    ghost var made: nat
    ghost var released: nat

    /** The indices are fields of the rows read; every batch made was released once, except the current one. */
    ghost predicate Valid()
      reads this, inner
    {
      && InRange(indices, numFields) && FitsSchema(inner.pending, numFields)
      && made == released + if cur.Some? then 1 else 0
    }

    /** The batches this reader will still deliver. */
    ghost function Coming(): seq<Batch<Row>>
      reads this, inner
    {
      Delivered(inner.pending, Some(indices))
    }

    /** `ProjectReader` panics on an index outside the wrapped reader's schema. */
    constructor (inner: BatchReader<Row>, indices: seq<int>, ghost numFields: nat)
      requires FitsSchema(inner.pending, numFields) && InRange(indices, numFields)
      ensures Valid() && this.inner == inner && this.indices == indices && this.numFields == numFields
      ensures cur.None? && made == released == 0
    {
      this.inner, this.indices, this.numFields := inner, indices, numFields;
      cur, made, released := None, 0, 0;
    }

    method Next() returns (more: bool)
      requires Valid()
      modifies this, inner`pending, inner`cur
      ensures Valid()
      ensures more <==> old(Coming()) != []
      ensures more ==> cur == Some(old(Coming())[0]) && Coming() == old(Coming())[1..]
      ensures more <==> old(inner.pending) != []
      ensures more ==> PicksRows(cur.value, old(inner.pending)[0], Some(indices))
      ensures more ==> inner.pending == old(inner.pending)[1..]
      ensures !more ==> cur.None? && Coming() == []
      ensures released == old(released) + if old(cur).Some? then 1 else 0
    {
      if cur.Some? {
        cur, released := None, released + 1;
      }
      more := inner.Next();
      if !more {
        return false;
      }
      cur, made := Some(ProjectBatch(inner.cur.value, indices)), made + 1;
    }

    method Retain()
      requires Valid()
      modifies inner`references
      ensures Valid() && inner.references == old(inner.references) + 1
    {
      inner.Retain();
    }

    /** Lets go of the current batch, if any, and passes the call on. */
    method Release()
      requires Valid()
      modifies this`cur, this`released, inner`references
      ensures Valid() && cur.None? && made == released
      ensures inner.references == old(inner.references) - 1
    {
      if cur.Some? {
        cur, released := None, released + 1;
      }
      inner.Release();
    }
  }

  /** The engine pulling a projected scan to its end. */
  method ReadAll(reader: ProjectedReader) returns (delivered: seq<Batch<Row>>)
    requires reader.Valid()
    modifies reader, reader.inner
    ensures delivered == old(reader.Coming())
    ensures PicksBatches(delivered, old(reader.inner.pending), Some(reader.indices))
    ensures reader.Valid() && reader.made == reader.released
  {
    delivered := [];
    var more := reader.Next();
    if more {
      delivered := [reader.cur.value];
    }
    while more
      invariant reader.Valid() && (!more ==> reader.cur.None? && reader.Coming() == [])
      invariant delivered + reader.Coming() == old(reader.Coming())
      decreases more, |reader.inner.pending|
    {
      more := reader.Next();
      if more {
        delivered := delivered + [reader.cur.value];
      }
    }
    DeliveredPicks(old(reader.inner.pending), Some(reader.indices));
  }

  // ----- Parquet -----

  predicate Distinct(s: seq<int>) {
    forall i, j | 0 <= i < j < |s| :: s[i] != s[j]
  }

  /** Every leaf column belongs to exactly one field, and every field has a leaf. */
  ghost predicate ManifestOk(manifest: seq<SchemaField>) {
    && (forall i | 0 <= i < |manifest| :: FieldLeaves(manifest[i]) != [])
    && forall i, j, leaf | 0 <= i < |manifest| && 0 <= j < |manifest|
                           && leaf in FieldLeaves(manifest[i]) && leaf in FieldLeaves(manifest[j]) :: i == j
  }

  /** The field a leaf column belongs to. */
  function RootOf(manifest: seq<SchemaField>, leaf: int): int {
    if manifest == [] then -1
    else if leaf in FieldLeaves(manifest[|manifest| - 1]) then |manifest| - 1
    else RootOf(manifest[..|manifest| - 1], leaf)
  }

  /** The fields of the leaves, each at its first appearance: the column order `GetRecordReader` yields. */
  function FieldIndices(manifest: seq<SchemaField>, leaves: seq<int>): seq<int> {
    if leaves == [] then []
    else
      var before, root := FieldIndices(manifest, leaves[..|leaves| - 1]), RootOf(manifest, leaves[|leaves| - 1]);
      if root in before then before else before + [root]
  }

  /** `GetRecordReader`: no leaves at all reads every column. */
  function GetRecordReader(batches: seq<Batch<Row>>, manifest: seq<SchemaField>, leaves: seq<int>): seq<Batch<Row>> {
    if leaves == [] then batches else Delivered(batches, Some(FieldIndices(manifest, leaves)))
  }

  lemma {:induction false} RootOfLeaf(manifest: seq<SchemaField>, n: nat, f: int, leaf: int)
    requires ManifestOk(manifest) && 0 <= f < n <= |manifest| && leaf in FieldLeaves(manifest[f])
    ensures RootOf(manifest[..n], leaf) == f
  {
    assert manifest[..n][|manifest[..n]| - 1] == manifest[n - 1];
    if f < n - 1 {
      assert manifest[..n][..n - 1] == manifest[..n - 1];
      RootOfLeaf(manifest, n - 1, f, leaf);
    }
  }

  /** Reading one more field's leaves adds that field, once, unless it is already read. */
  lemma {:induction false} FieldIndicesAppend(manifest: seq<SchemaField>, leaves: seq<int>, f: int, k: nat)
    requires ManifestOk(manifest) && 0 <= f < |manifest| && k <= |FieldLeaves(manifest[f])|
    requires f !in FieldIndices(manifest, leaves)
    ensures FieldIndices(manifest, leaves + FieldLeaves(manifest[f])[..k]) ==
            FieldIndices(manifest, leaves) + if k == 0 then [] else [f]
  {
    var more := leaves + FieldLeaves(manifest[f])[..k];
    if k == 0 {
      assert more == leaves;
    } else {
      var leaf := FieldLeaves(manifest[f])[k - 1];
      assert more[..|more| - 1] == leaves + FieldLeaves(manifest[f])[..k - 1];
      FieldIndicesAppend(manifest, leaves, f, k - 1);
      RootOfLeaf(manifest, |manifest|, f, leaf);
      assert manifest[..|manifest|] == manifest;
    }
  }

  /** The map says where each field is in the read order, and knows all of it, each field once. */
  ghost predicate Located(pos: map<int, int>, order: seq<int>) {
    && (forall f | f in pos :: 0 <= pos[f] < |order| && order[pos[f]] == f)
    && (forall j | 0 <= j < |order| :: order[j] in pos && pos[order[j]] == j)
  }

  lemma LocatedAppend(pos: map<int, int>, order: seq<int>, f: int)
    requires Located(pos, order) && f !in pos
    ensures f !in order && Located(pos[f := |order|], order + [f])
  {
  }

  /** A plan for the fields wanted so far. */
  ghost predicate PlanFor(manifest: seq<SchemaField>, wanted: seq<int>, order: seq<int>, pos: map<int, int>,
                          leaves: seq<int>)
  {
    && FieldIndices(manifest, leaves) == order && Located(pos, order) && (forall f :: f in pos <==> f in wanted)
    && InRange(wanted, |manifest|) && (wanted != [] ==> leaves != [])
    && (forall f, leaf | f in pos && leaf in FieldLeaves(manifest[f]) :: leaf in leaves)
    && |order| <= |wanted| && (|order| == |wanted| ==> order == wanted)
  }

  lemma PlanNewField(manifest: seq<SchemaField>, wanted: seq<int>, order: seq<int>, pos: map<int, int>,
                     leaves: seq<int>, f: int)
    requires ManifestOk(manifest) && PlanFor(manifest, wanted, order, pos, leaves)
    requires 0 <= f < |manifest| && f !in pos
    ensures PlanFor(manifest, wanted + [f], order + [f], pos[f := |order|], leaves + FieldLeaves(manifest[f]))
  {
    LocatedAppend(pos, order, f);
    FieldIndicesAppend(manifest, leaves, f, |FieldLeaves(manifest[f])|);
    assert FieldLeaves(manifest[f])[..|FieldLeaves(manifest[f])|] == FieldLeaves(manifest[f]);
  }

  lemma PlanOldField(manifest: seq<SchemaField>, wanted: seq<int>, order: seq<int>, pos: map<int, int>,
                     leaves: seq<int>, f: int)
    requires PlanFor(manifest, wanted, order, pos, leaves) && 0 <= f < |manifest| && f in pos
    ensures PlanFor(manifest, wanted + [f], order, pos, leaves)
  {
  }

  /**
   * The fields to read, exactly the wanted ones, once each in first-appearance order, where each is found, and the
   * leaves to ask for.
   */
  method ReadPlan(manifest: seq<SchemaField>, wanted: seq<int>)
      returns (plan: Result<(seq<int>, map<int, int>, seq<int>)>)
    requires ManifestOk(manifest)
    ensures plan.Ok? <==> InRange(wanted, |manifest|)
    ensures plan.Ok? ==>
              var (readOrder, posInRead, leaves) := plan.value;
              && FieldIndices(manifest, leaves) == readOrder && (wanted != [] ==> leaves != [])
              && Distinct(readOrder) && (forall f :: f in readOrder <==> f in wanted)
              && (forall f, leaf | f in wanted && leaf in FieldLeaves(manifest[f]) :: leaf in leaves)
              && (forall i | 0 <= i < |wanted| ::
                    && wanted[i] in posInRead && 0 <= posInRead[wanted[i]] < |readOrder|
                    && readOrder[posInRead[wanted[i]]] == wanted[i])
              && (|readOrder| == |wanted| ==> readOrder == wanted)
  {
    var readOrder: seq<int> := [];
    var posInRead: map<int, int> := map[];
    var leaves: seq<int> := [];
    for i := 0 to |wanted|
      invariant PlanFor(manifest, wanted[..i], readOrder, posInRead, leaves)
    {
      var f := wanted[i];
      if f < 0 || f >= |manifest| {
        return Err;
      }
      assert wanted[..i + 1] == wanted[..i] + [f];
      if f in posInRead {
        PlanOldField(manifest, wanted[..i], readOrder, posInRead, leaves, f);
        continue;
      }
      PlanNewField(manifest, wanted[..i], readOrder, posInRead, leaves, f);
      posInRead := posInRead[f := |readOrder|];
      readOrder := readOrder + [f];
      leaves := leaves + FieldLeaves(manifest[f]);
    }
    assert wanted[..|wanted|] == wanted;
    plan := Ok((readOrder, posInRead, leaves));
  }

  /** `ProjectReader` around what the file reader yields, read to its end. */
  method ReadProjected(batches: seq<Batch<Row>>, indices: seq<int>, ghost numFields: nat)
      returns (delivered: seq<Batch<Row>>)
    requires FitsSchema(batches, numFields) && InRange(indices, numFields)
    ensures delivered == Delivered(batches, Some(indices))
  {
    var inner := new BatchReader(batches);
    var reader := new ProjectedReader(inner, indices, numFields);
    delivered := ReadAll(reader);
  }

  /**
   * `openProjectedReader`: duplicates are read once, in first-appearance order, and expanded again.
   * Column i of what it delivers is table column projection[i], whatever the order and the duplicates.
   */
  method OpenProjectedReader(batches: seq<Batch<Row>>, manifest: seq<SchemaField>, projection: Option<seq<int>>,
                             cheapestLeaf: int)
      returns (delivered: Result<seq<Batch<Row>>>)
    requires ManifestOk(manifest)
    ensures delivered.Ok? <==> projection.None? || InRange(projection.value, |manifest|)
    ensures delivered.Ok? ==> delivered.value == Delivered(batches, projection)
    ensures delivered.Ok? ==> PicksBatches(delivered.value, batches, projection)
  {
    DeliveredPicks(batches, projection);
    if projection.None? {
      return Ok(GetRecordReader(batches, manifest, []));
    }
    var wanted := projection.value;
    if |wanted| == 0 {
      var rr := GetRecordReader(batches, manifest, [cheapestLeaf]);
      TwiceProjected(batches, FieldIndices(manifest, [cheapestLeaf]), [], wanted);
      var all := ReadProjected(rr, [], |FieldIndices(manifest, [cheapestLeaf])|);
      return Ok(all);
    }
    var plan := ReadPlan(manifest, wanted);
    if plan.Err? {
      return Err;
    }
    var (readOrder, posInRead, leaves) := plan.value;
    var rr := GetRecordReader(batches, manifest, leaves);
    if |readOrder| != |wanted| {
      var perm := seq(|wanted|, i requires 0 <= i < |wanted| => posInRead[wanted[i]]);
      TwiceProjected(batches, readOrder, perm, wanted);
      var all := ReadProjected(rr, perm, |readOrder|);
      return Ok(all);
    }
    delivered := Ok(rr);
  }

  /** Projecting a projection picks through it. */
  lemma TwiceProjected(batches: seq<Batch<Row>>, first: seq<int>, second: seq<int>, both: seq<int>)
    requires |second| == |both| && InRange(second, |first|)
    requires forall i | 0 <= i < |both| :: first[second[i]] == both[i]
    ensures Delivered(Delivered(batches, Some(first)), Some(second)) == Delivered(batches, Some(both))
  {
    forall k, r | 0 <= k < |batches| && 0 <= r < |batches[k]|
      ensures ProjectRow(ProjectRow(batches[k][r], first), second) == ProjectRow(batches[k][r], both)
    {
    }
    forall k | 0 <= k < |batches|
      ensures ProjectBatch(ProjectBatch(batches[k], first), second) == ProjectBatch(batches[k], both)
    {
    }
  }

  // ----- Iceberg -----

  predicate Ascending(s: seq<int>) {
    forall i, j | 0 <= i < j < |s| :: s[i] < s[j]
  }

  /** `sort.Ints`, on distinct integers. */
  method SortInts(a: seq<int>) returns (sorted: seq<int>)
    requires Distinct(a)
    ensures Ascending(sorted) && |sorted| == |a| && forall x :: x in sorted <==> x in a
  {
    sorted := [];
    for i := 0 to |a|
      invariant Ascending(sorted) && |sorted| == i && forall x :: x in sorted <==> x in a[..i]
    {
      assert a[i] !in a[..i];
      assert a[..i + 1] == a[..i] + [a[i]];
      sorted := Insert(sorted, a[i]);
    }
    assert a[..|a|] == a;
  }

  method Insert(sorted: seq<int>, x: int) returns (longer: seq<int>)
    requires Ascending(sorted) && x !in sorted
    ensures Ascending(longer) && |longer| == |sorted| + 1 && forall y :: y in longer <==> y in sorted || y == x
  {
    var k := 0;
    while k < |sorted| && sorted[k] < x
      invariant 0 <= k <= |sorted| && forall j | 0 <= j < k :: sorted[j] < x
    {
      k := k + 1;
    }
    longer := sorted[..k] + [x] + sorted[k..];
    assert sorted == sorted[..k] + sorted[k..];
    assert k < |sorted| ==> x < sorted[k];
  }

  /** The indices below n of the selected names, in schema order: the columns an Iceberg scan yields. */
  function SelectedFields(schema: seq<string>, names: set<string>, n: nat): seq<int>
    requires n <= |schema|
  {
    if n == 0 then []
    else SelectedFields(schema, names, n - 1) + if schema[n - 1] in names then [n - 1] else []
  }

  function IcebergRead(batches: seq<Batch<Row>>, schema: seq<string>, names: seq<string>): seq<Batch<Row>> {
    Delivered(batches, Some(SelectedFields(schema, set x | x in names, |schema|)))
  }

  predicate UniqueNames(schema: seq<string>) {
    forall i, j | 0 <= i < j < |schema| :: schema[i] != schema[j]
  }

  /** Selecting the names at ascending positions yields these positions. */
  lemma {:induction false} SelectsAscending(schema: seq<string>, order: seq<int>, names: set<string>, n: nat)
    requires UniqueNames(schema) && n <= |schema| && Ascending(order) && InRange(order, n)
    requires forall i | 0 <= i < n :: schema[i] in names <==> i in order
    ensures SelectedFields(schema, names, n) == order
  {
    SomeInRange(order, n);
    if n > 0 {
      if n - 1 in order {
        var last := |order| - 1;
        assert order[last] == n - 1;
        assert order == order[..last] + [n - 1];
        forall i | 0 <= i < n - 1 ensures i in order[..last] <==> i in order {
        }
        SelectsAscending(schema, order[..last], names, n - 1);
      } else {
        SelectsAscending(schema, order, names, n - 1);
        assert order + [] == order;
      }
    }
  }

  datatype Plan = Plan(names: seq<string>, perm: Option<seq<int>>)

  /**
   * `projectionPlan`: with the scan's schema-ordered columns re-ordered by the plan, column i is field projection[i].
   * No re-ordering is planned exactly when the projection is ascending already.
   */
  method ProjectionPlan(schema: seq<string>, projection: seq<int>) returns (plan: Result<Plan>)
    requires |schema| > 0 && UniqueNames(schema)
    ensures plan.Ok? <==> InRange(projection, |schema|)
    ensures plan.Ok? ==> (plan.value.perm.None? <==> projection != [] && Ascending(projection))
    ensures plan.Ok? ==>
              forall i | 0 <= i < |schema| ::
                schema[i] in plan.value.names <==> i in projection || (projection == [] && i == 0)
    ensures plan.Ok? && plan.value.perm.Some? ==>
              InRange(plan.value.perm.value, |SelectedFields(schema, set x | x in plan.value.names, |schema|)|)
    ensures plan.Ok? ==>
              forall batches: seq<Batch<Row>> ::
                Delivered(IcebergRead(batches, schema, plan.value.names), plan.value.perm) ==
                  Delivered(batches, Some(projection))
  {
    if |projection| == 0 {
      plan := Ok(Plan([schema[0]], Some([])));
      forall batches: seq<Batch<Row>> {
        TwiceProjected(batches, SelectedFields(schema, set x | x in [schema[0]], |schema|), [], projection);
      }
      return;
    }
    var unique: seq<int> := [];
    var seen: set<int> := {};
    for i := 0 to |projection|
      invariant InRange(projection[..i], |schema|)
      invariant Distinct(unique) && forall x :: x in unique <==> x in projection[..i]
      invariant forall x :: x in seen <==> x in unique
    {
      var idx := projection[i];
      if idx < 0 || idx >= |schema| {
        return Err;
      }
      assert projection[..i + 1] == projection[..i] + [idx];
      if idx !in seen {
        seen := seen + {idx};
        unique := unique + [idx];
      }
    }
    assert projection[..|projection|] == projection;
    var outputOrder := SortInts(unique);
    forall k | 0 <= k < |outputOrder| ensures 0 <= outputOrder[k] < |schema| {
      assert outputOrder[k] in outputOrder;
      assert outputOrder[k] in projection;
    }
    var posInOutput: map<int, int> := map[];
    var names: seq<string> := [];
    for pos := 0 to |outputOrder|
      invariant |names| == pos && forall k | 0 <= k < pos :: names[k] == schema[outputOrder[k]]
      invariant forall k | 0 <= k < pos :: outputOrder[k] in posInOutput && posInOutput[outputOrder[k]] == k
    {
      assert outputOrder[pos] in projection;
      names := names + [schema[outputOrder[pos]]];
      posInOutput := posInOutput[outputOrder[pos] := pos];
    }
    var identity := |projection| == |outputOrder|;
    var perm: seq<int> := [];
    for i := 0 to |projection|
      invariant |perm| == i && InRange(perm, |outputOrder|)
      invariant forall k | 0 <= k < i :: outputOrder[perm[k]] == projection[k]
      invariant identity <==> |projection| == |outputOrder| && forall k | 0 <= k < i :: perm[k] == k
    {
      assert projection[i] in outputOrder;
      perm := perm + [posInOutput[projection[i]]];
      if perm[i] != i {
        identity := false;
      }
    }
    PlanReads(schema, names, outputOrder);
    AscendingIsIdentity(projection, outputOrder, perm);
    forall batches: seq<Batch<Row>>
      ensures Delivered(IcebergRead(batches, schema, names), Some(perm)) == Delivered(batches, Some(projection))
    {
      TwiceProjected(batches, outputOrder, perm, projection);
    }
    plan := Ok(Plan(names, if identity then None else Some(perm)));
  }

  /** The selected names are exactly those of the output order. */
  lemma PlanReads(schema: seq<string>, names: seq<string>, order: seq<int>)
    requires UniqueNames(schema) && Ascending(order) && InRange(order, |schema|)
    requires |names| == |order| && forall k | 0 <= k < |order| :: names[k] == schema[order[k]]
    ensures SelectedFields(schema, set x | x in names, |schema|) == order
    ensures forall i | 0 <= i < |schema| :: schema[i] in names <==> i in order
  {
    forall i | 0 <= i < |schema| ensures schema[i] in names <==> i in order {
      if i in order {
        var k :| 0 <= k < |order| && order[k] == i;
        assert names[k] == schema[i];
      }
      if schema[i] in names {
        var k :| 0 <= k < |names| && names[k] == schema[i];
        assert order[k] == i;
      }
    }
    SelectsAscending(schema, order, set x | x in names, |schema|);
  }

  /** The permutation is the identity exactly when the projection ascends. */
  lemma AscendingIsIdentity(projection: seq<int>, order: seq<int>, perm: seq<int>)
    requires Ascending(order) && |perm| == |projection| && InRange(perm, |order|)
    requires forall k | 0 <= k < |perm| :: order[perm[k]] == projection[k]
    requires forall x :: x in order <==> x in projection
    ensures |projection| == |order| && (forall k | 0 <= k < |perm| :: perm[k] == k) <==> Ascending(projection)
    ensures |projection| == |order| && (forall k | 0 <= k < |perm| :: perm[k] == k) ==> projection == order
  {
    if Ascending(projection) {
      SameAscending(projection, order);
    }
  }

  /** Ascending sequences of the same elements are equal. */
  lemma {:induction false} SameAscending(a: seq<int>, b: seq<int>)
    requires Ascending(a) && Ascending(b) && forall x :: x in a <==> x in b
    ensures a == b
  {
    if a == [] {
      SomeShared(a, b);
    } else {
      assert a[0] in a && a[0] in b;
      var m, n := |a| - 1, |b| - 1;
      assert a[m] in a && a[m] in b && b[n] in b && b[n] in a;
      assert a[m] == b[n];
      forall x ensures x in a[..m] <==> x in b[..n] {
        assert x in a[..m] <==> x in a && x != a[m];
        assert x in b[..n] <==> x in b && x != b[n];
      }
      SameAscending(a[..m], b[..n]);
    }
  }

  lemma SomeInRange(s: seq<int>, n: int)
    requires InRange(s, n)
    ensures s == [] || n > 0
  {
    if s != [] {
      assert 0 <= s[0] < n;
    }
  }

  lemma SomeShared(a: seq<int>, b: seq<int>)
    requires forall x :: x in b ==> x in a
    ensures b == [] || a != []
  {
    if b != [] {
      var x := b[0];
      assert x in b;
      assert x in a;
    }
  }
}
