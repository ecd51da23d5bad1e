/** One Parquet scan: `ScanWithOptions` of `providers/parquet/pushdown.go`, selection, projection and limit together. */
module Scan {
  import opened Wrappers
  import opened Values
  import opened Predicates
  import opened RowGroups
  import opened Limit
  import opened Projection

  /** `datafusion.ScanOptions`; a negative limit is no hint. */
  datatype ScanOptions = ScanOptions(projection: Option<seq<int>>, filters: seq<Expr>, limit: int)

  function Projected(rows: seq<Row>, projection: Option<seq<int>>): seq<Row> {
    if projection.None? then rows else ProjectBatch(rows, projection.value)
  }

  /** How the file reader cuts rows into batches. */
  type Splitter = seq<Row> -> seq<Batch<Row>>

  ghost predicate Splits(split: Splitter) {
    forall rows :: Flatten(split(rows)) == rows
  }

  /** The engine's WHERE clause, read on whole rows and on the projected ones. */
  ghost predicate SameOnProjection(keep: RowTest, keepProjected: RowTest, projection: Option<seq<int>>) {
    forall r :: keepProjected(if projection.None? then r else ProjectRow(r, projection.value)) == keep(r)
  }

  lemma {:induction false} FlattenDelivered(batches: seq<Batch<Row>>, projection: Option<seq<int>>)
    ensures Flatten(Delivered(batches, projection)) == Projected(Flatten(batches), projection)
  {
    if batches != [] && projection.Some? {
      FlattenDelivered(batches[1..], projection);
      assert Delivered(batches, projection)[1..] == Delivered(batches[1..], projection);
      ProjectAppend(batches[0], Flatten(batches[1..]), projection.value);
    }
  }

  lemma ProjectedPicks(rows: seq<Row>, projection: Option<seq<int>>)
    ensures PicksRows(Projected(rows, projection), rows, projection)
  {
  }

  lemma ProjectAppend(a: seq<Row>, b: seq<Row>, indices: seq<int>)
    ensures ProjectBatch(a + b, indices) == ProjectBatch(a, indices) + ProjectBatch(b, indices)
  {
  }

  lemma {:induction false} FilterProjected(rows: seq<Row>, keep: RowTest, keepProjected: RowTest,
                                           projection: Option<seq<int>>)
    requires SameOnProjection(keep, keepProjected, projection)
    ensures Filter(keepProjected, Projected(rows, projection)) == Projected(Filter(keep, rows), projection)
  {
    if rows != [] {
      FilterProjected(rows[1..], keep, keepProjected, projection);
      var first := if projection.None? then rows[0] else ProjectRow(rows[0], projection.value);
      assert Projected(rows, projection)[0] == first;
      assert Projected(rows, projection)[1..] == Projected(rows[1..], projection);
      if projection.Some? {
        ProjectAppend([rows[0]], Filter(keep, rows[1..]), projection.value);
        assert ProjectBatch([rows[0]], projection.value) == [first];
      }
      assert [] + Filter(keep, rows[1..]) == Filter(keep, rows[1..]);
    }
  }

  /**
   * Whatever row groups are skipped and however columns are read, filtering the delivered rows gives what filtering the
   * whole projected table gives; and with a limit hint, which the engine never sends along with filters, the first rows
   * up to the limit are the table's.
   */
  method ScanWithOptions(file: File, opts: ScanOptions, split: Splitter, cheapestLeaf: int,
                         ghost keep: RowTest, ghost keepProjected: RowTest, ghost engine: Engine)
      returns (delivered: Result<seq<Batch<Row>>>)
    requires WellFormed(file) && |file.manifest| == |file.types| && ManifestOk(file.manifest) && Splits(split)
    requires TruthfulFile(file) && SuitsFile(opts.filters, file, engine)
    requires ListsProviso(opts.filters, engine) && Implies(keep, opts.filters, file, engine)
    requires SameOnProjection(keep, keepProjected, opts.projection)
    ensures delivered.Ok? <==> opts.projection.None? || InRange(opts.projection.value, |file.manifest|)
    ensures delivered.Ok? && opts.limit < 0 ==>
              PicksRows(Flatten(delivered.value), ReadSurvivors(file, opts.filters), opts.projection)
    ensures delivered.Ok? && opts.limit >= 0 ==>
              exists all :: PicksRows(Flatten(all), ReadSurvivors(file, opts.filters), opts.projection)
                            && delivered.value == LimitPrefix(all, opts.limit)
    ensures delivered.Ok? && opts.limit < 0 ==>
              Filter(keepProjected, Flatten(delivered.value)) ==
              Filter(keepProjected, Projected(Read(file, None), opts.projection))
    ensures delivered.Ok? && opts.limit >= 0 && opts.filters == [] ==>
              Take(Flatten(delivered.value), opts.limit) ==
                Take(Projected(Read(file, None), opts.projection), opts.limit)
  {
    var selected := SelectRowGroups(file, opts.filters);
    SelectionReadsSurvivors(file, opts.filters, selected);
    SelectionKeepsAnswer(file, opts.filters, selected, keep, engine);
    ProjectedPicks(Read(file, selected), opts.projection);
    FilterProjected(Read(file, selected), keep, keepProjected, opts.projection);
    FilterProjected(Read(file, None), keep, keepProjected, opts.projection);
    if selected.Some? && |selected.value| == 0 {
      if opts.projection.Some? && !InRange(opts.projection.value, |file.types|) {
        return Err;
      }
      assert LimitPrefix<Row>([], opts.limit) == [];
      return Ok([]);
    }
    var batches := split(Read(file, selected));
    var reader := OpenProjectedReader(batches, file.manifest, opts.projection, cheapestLeaf);
    if reader.Err? {
      return Err;
    }
    FlattenDelivered(batches, opts.projection);
    if opts.limit < 0 {
      return reader;
    }
    var inner := new BatchReader(reader.value);
    var limited := new LimitReader(inner, opts.limit);
    var out := Drain(limited);
    LimitRefinesTake(reader.value, opts.limit);
    delivered := Ok(out);
  }
}
