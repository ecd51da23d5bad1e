/**
 * One filtered query through the whole pipeline: recognize, serialize, decode, select row groups, read, filter again.
 */
module EndToEnd {
  import opened Wrappers
  import opened Values
  import opened Predicates
  import opened Skip
  import opened SkipSoundness
  import opened RowGroups
  import opened Limit
  import opened Projection
  import opened Scan
  import opened Pushdown
  import opened Wire
  import opened ZeroedFloats
  import I = IcebergConvert
  import Base64

  // ----- Which conjuncts are pushed -----

  datatype Support = Inexact | Unsupported

  /** `supports_filters_pushdown`: nothing is ever exact, so the engine filters again. */
  function SupportOf(e: EngineExpr, schema: seq<string>): Support {
    if Classify(e, schema).Some? then Inexact else Unsupported
  }

  function Pushed(filters: seq<EngineExpr>, schema: seq<string>): seq<EngineExpr> {
    if filters == [] then []
    else (if SupportOf(filters[0], schema).Inexact? then [filters[0]] else []) + Pushed(filters[1..], schema)
  }

  /** The planner is offered exactly the conjuncts the AST covers, and none as exact. */
  lemma SupportIffCovered(e: EngineExpr, schema: seq<string>)
    ensures SupportOf(e, schema) == if Covered(e, schema) then Inexact else Unsupported
  {
    ClassifyRecognizesCovered(e, schema);
  }

  lemma RecognizedCons(e: EngineExpr, rest: seq<EngineExpr>, schema: seq<string>)
    ensures Recognized([e] + rest, schema) ==
            (if Classify(e, schema).Some? then [Classify(e, schema).value] else []) + Recognized(rest, schema)
  {
    assert ([e] + rest)[1..] == rest;
  }

  lemma {:induction false} PushedAreRecognized(filters: seq<EngineExpr>, schema: seq<string>)
    ensures Recognized(Pushed(filters, schema), schema) == Recognized(filters, schema)
  {
    if filters != [] {
      var e, rest := filters[0], filters[1..];
      PushedAreRecognized(rest, schema);
      RecognizedCons(e, Pushed(rest, schema), schema);
      if SupportOf(e, schema).Inexact? {
        assert Pushed(filters, schema) == [e] + Pushed(rest, schema);
      } else {
        assert Pushed(filters, schema) == Pushed(rest, schema);
        assert [] + Recognized(rest, schema) == Recognized(rest, schema);
      }
    }
  }

  // ----- Provisos on the WHERE clause -----

  predicate EveryScalar(e: EngineExpr, holds: Scalar -> bool) {
    match e
    case ColumnExpr(_) => true
    case LiteralExpr(s) => holds(s)
    case BinaryExpr(l, _, r) => EveryScalar(l, holds) && EveryScalar(r, holds)
    case IsNullExpr(x) => EveryScalar(x, holds)
    case IsNotNullExpr(x) => EveryScalar(x, holds)
    case NotExpr(x) => EveryScalar(x, holds)
    case BetweenExpr(x, _, low, high) => EveryScalar(x, holds) && EveryScalar(low, holds) && EveryScalar(high, holds)
    case InListExpr(x, list, _) => EveryScalar(x, holds) && forall k | 0 <= k < |list| :: EveryScalar(list[k], holds)
    case OtherExpr(_) => true
  }

  /** Rust's integer types bound the scalar. */
  predicate TypedScalar(s: Scalar) {
    ScalarValue(s).Some? ==> FitsGoType(ScalarValue(s).value)
  }

  lemma LiteralIsTyped(e: EngineExpr)
    requires EveryScalar(e, TypedScalar) && LiteralOf(e).Some?
    ensures WellTypedLiteral(LiteralOf(e).value)
  {
    LiteralKeepsValue(e.scalar);
    if e.scalar.ScalarBinary? {
      Base64.DecodeInvertsEncode(e.scalar.bytes.value);
    }
  }

  lemma {:induction false} RecognizedIsTyped(e: EngineExpr, schema: seq<string>)
    requires EveryScalar(e, TypedScalar) && |schema| <= SignedMax(W64) && Classify(e, schema).Some?
    ensures WellTypedPredicate(Classify(e, schema).value)
  {
    match e
    case BinaryExpr(l, op, r) =>
      if op.OpAnd? || op.OpOr? {
        RecognizedIsTyped(l, schema);
        RecognizedIsTyped(r, schema);
      } else if LiteralOf(r).Some? {
        LiteralIsTyped(r);
      } else {
        LiteralIsTyped(l);
      }
    case NotExpr(x) => RecognizedIsTyped(x, schema);
    case BetweenExpr(_, _, low, high) =>
      LiteralIsTyped(low);
      LiteralIsTyped(high);
    case InListExpr(_, list, _) =>
      forall k | 0 <= k < |list| ensures WellTypedLiteral(LiteralOf(list[k]).value) {
        LiteralIsTyped(list[k]);
      }
    case _ =>
  }

  // ----- The answer -----

  /** A row is in the answer when every conjunct is true of it. */
  function Where(filters: seq<EngineExpr>, schema: seq<string>, engine: Engine, elsewhere: Elsewhere): Row -> bool {
    (r: Row) => forall k :: 0 <= k < |filters| ==> EvalEngine(filters[k], r, schema, engine, elsewhere).True?
  }

  /** The literals of the conjuncts that are pushed fit their Rust types. */
  predicate TypedPushed(filters: seq<EngineExpr>, schema: seq<string>) {
    forall k | 0 <= k < |filters| && Classify(filters[k], schema).Some? :: EveryScalar(filters[k], TypedScalar)
  }

  /** The table's columns by name, as the registered schema lists them. */
  function FieldsByName(schema: seq<string>): I.Resolver {
    (name: string) => if IndexOf(name, schema).Some? then IndexOf(name, schema).value else -1
  }

  lemma {:induction false} RecognizedResolves(e: EngineExpr, schema: seq<string>)
    requires Classify(e, schema).Some?
    ensures I.Resolved(GoExpr(Classify(e, schema).value), FieldsByName(schema))
  {
    match e
    case BinaryExpr(l, op, r) =>
      if op.OpAnd? || op.OpOr? {
        RecognizedResolves(l, schema);
        RecognizedResolves(r, schema);
      }
    case NotExpr(x) => RecognizedResolves(x, schema);
    case _ =>
  }

  /** The conjuncts that are pushed, as the engine means them. */
  function PushedExprs(filters: seq<EngineExpr>, schema: seq<string>): seq<Expr> {
    GoExprs(Recognized(filters, schema))
  }

  /** Every recognized predicate comes from a conjunct. */
  lemma {:induction false} RecognizedFrom(filters: seq<EngineExpr>, schema: seq<string>, k: nat) returns (j: nat)
    requires k < |Recognized(filters, schema)|
    ensures j < |filters| && Classify(filters[j], schema) == Some(Recognized(filters, schema)[k])
  {
    var first := Classify(filters[0], schema);
    if first.Some? && k == 0 {
      j := 0;
    } else {
      j := RecognizedFrom(filters[1..], schema, if first.Some? then k - 1 else k);
      j := j + 1;
    }
  }

  /** The WHERE clause implies what is pushed. */
  lemma PushedIsImplied(filters: seq<EngineExpr>, schema: seq<string>, engine: Engine, elsewhere: Elsewhere, r: Row,
                        k: nat)
    requires k < |PushedExprs(filters, schema)| && Where(filters, schema, engine, elsewhere)(r)
    ensures Eval(PushedExprs(filters, schema)[k], r, engine).True?
  {
    var j := RecognizedFrom(filters, schema, k);
    ClassifyKeepsMeaning(filters[j], r, schema, engine, elsewhere);
  }

  lemma PushedIsResolved(filters: seq<EngineExpr>, schema: seq<string>, k: nat)
    requires k < |PushedExprs(filters, schema)|
    ensures I.Resolved(PushedExprs(filters, schema)[k], FieldsByName(schema))
  {
    var j := RecognizedFrom(filters, schema, k);
    RecognizedResolves(filters[j], schema);
  }

  /** What the provider decodes is what is pushed, with floats that JSON cannot carry as zero. */
  lemma PushedArrives(filters: seq<EngineExpr>, schema: seq<string>)
    requires |schema| <= SignedMax(W64) && TypedPushed(filters, schema)
    ensures DecodeAll(Documents(Recognized(filters, schema))) == Ok(ArrivingExprs(PushedExprs(filters, schema)))
  {
    var ps := Recognized(filters, schema);
    forall k | 0 <= k < |ps| ensures WellTypedPredicate(ps[k]) {
      var j := RecognizedFrom(filters, schema, k);
      RecognizedIsTyped(filters[j], schema);
    }
    DocumentArrives(ps);
  }

  /** Everything that is pushed only gets weaker on the way. */
  predicate HarmlessPushed(filters: seq<EngineExpr>, schema: seq<string>, types: seq<DataType>) {
    forall e | e in PushedExprs(filters, schema) :: HarmlessTree(e, false, types)
  }

  /** The filters the provider ends up with are implied by the WHERE clause where what is pushed is harmless. */
  lemma DecodedFilters(filters: seq<EngineExpr>, schema: seq<string>, types: seq<DataType>, r: Row, engine: Engine,
                       elsewhere: Elsewhere)
      returns (exprs: seq<Expr>)
    requires |schema| <= SignedMax(W64) && TypedPushed(filters, schema) && HarmlessPushed(filters, schema, types)
    requires TypedRow(r, types) && forall e | e in PushedExprs(filters, schema) :: AgreesOn(e, types, r, engine)
    ensures DecodeAll(Documents(Recognized(filters, schema))) == Ok(exprs)
    ensures Where(filters, schema, engine, elsewhere)(r) ==>
              forall e | e in exprs :: Eval(e, r, FloatEngine(engine, types)).True?
  {
    var ps := PushedExprs(filters, schema);
    PushedArrives(filters, schema);
    exprs := ArrivingExprs(ps);
    if Where(filters, schema, engine, elsewhere)(r) {
      forall k | 0 <= k < |exprs| ensures Eval(exprs[k], r, FloatEngine(engine, types)).True? {
        assert ps[k] in ps;
        PushedIsImplied(filters, schema, engine, elsewhere, r, k);
        HarmlessArrives(ps[k], false, types, r, engine);
      }
    }
  }

  /** The scan's filters: recognized, serialized and decoded, or none at all. */
  method PushFilters(filters: seq<EngineExpr>, schema: seq<string>) returns (exprs: seq<Expr>)
    requires |schema| <= SignedMax(W64) && TypedPushed(filters, schema)
    ensures exprs == ArrivingExprs(PushedExprs(filters, schema))
  {
    PushedArrives(filters, schema);
    PushedAreRecognized(filters, schema);
    var doc := FiltersToJson(Pushed(filters, schema), schema);
    if doc.None? {
      return [];
    }
    var result := DecodeFilters(doc.value);
    exprs := result.value;
  }

  // ----- Parquet -----

  /** What arrives suits the file as what was pushed does. */
  lemma ArrivingSuits(exprs: seq<Expr>, file: File, engine: Engine)
    requires SuitsFile(exprs, file, engine) && ListsProviso(exprs, engine)
    ensures SuitsFile(ArrivingExprs(exprs), file, FloatEngine(engine, file.types))
    ensures ListsProviso(ArrivingExprs(exprs), FloatEngine(engine, file.types))
  {
    var there, floats := ArrivingExprs(exprs), FloatEngine(engine, file.types);
    forall k, i, r | 0 <= k < |there| && 0 <= i < |file.groups| && r in file.groups[i].rows
      ensures SuitsRow(there[k], file.groups[i], file, r, floats)
    {
      assert SuitsRow(exprs[k], file.groups[i], file, r, engine);
      AgreesOnArrives(exprs[k], file.types, r, engine);
      ShapeArrives(exprs[k], false, (c: int) => ExposedIn(file.groups[i], file, r, c));
    }
    forall k | 0 <= k < |there| ensures NoEmptyLists(there[k]) || floats.nullInEmpty.Unknown? {
      assert exprs[k] in exprs;
      ShapeArrives(exprs[k], false, (c: int) => false);
    }
  }

  lemma ArrivingIsImplied(file: File, filters: seq<EngineExpr>, engine: Engine, elsewhere: Elsewhere)
    requires WellFormed(file) && |file.names| <= SignedMax(W64) && TruthfulFile(file)
    requires SuitsFile(PushedExprs(filters, file.names), file, engine)
    requires TypedPushed(filters, file.names) && HarmlessPushed(filters, file.names, file.types)
    ensures Implies(Where(filters, file.names, engine, elsewhere),
                    ArrivingExprs(PushedExprs(filters, file.names)), file, FloatEngine(engine, file.types))
  {
    var ps, keep := PushedExprs(filters, file.names), Where(filters, file.names, engine, elsewhere);
    var there := ArrivingExprs(ps);
    forall i, r, k | 0 <= i < |file.groups| && r in file.groups[i].rows && 0 <= k < |there| && keep(r)
      ensures Eval(there[k], r, FloatEngine(engine, file.types)).True?
    {
      assert TruthfulGroup(file.groups[i], file);
      forall e | e in ps ensures AgreesOn(e, file.types, r, engine) {
        var j :| 0 <= j < |ps| && ps[j] == e;
        assert SuitsRow(ps[j], file.groups[i], file, r, engine);
      }
      var exprs := DecodedFilters(filters, file.names, file.types, r, engine, elsewhere);
      PushedArrives(filters, file.names);
      assert there[k] in exprs;
    }
  }

  /**
   * Pushdown never changes the answer: for every WHERE clause, every projection that has the columns the clause needs
   * and every truthful file, filtering what the pushed-down scan delivers gives the rows, in the order, that filtering
   * the whole file and then projecting gives.
   */
  method Query(file: File, filters: seq<EngineExpr>, projection: Option<seq<int>>, split: Splitter, cheapestLeaf: int,
               keepProjected: Row -> bool, ghost engine: Engine, ghost elsewhere: Elsewhere)
      returns (answer: Result<seq<Row>>)
    requires WellFormed(file) && |file.manifest| == |file.types| && ManifestOk(file.manifest) && Splits(split)
    requires |file.names| <= SignedMax(W64) && TruthfulFile(file)
    requires SuitsFile(PushedExprs(filters, file.names), file, engine)
    requires TypedPushed(filters, file.names) && HarmlessPushed(filters, file.names, file.types)
    requires ListsProviso(PushedExprs(filters, file.names), engine)
    requires SameOnProjection(Where(filters, file.names, engine, elsewhere), keepProjected, projection)
    ensures answer.Ok? <==> projection.None? || InRange(projection.value, |file.manifest|)
    ensures answer.Ok? ==>
              answer.value ==
              Projected(Filter(Where(filters, file.names, engine, elsewhere), Read(file, None)), projection)
    ensures answer.Ok? ==>
              PicksRows(answer.value, Filter(Where(filters, file.names, engine, elsewhere), Read(file, None)),
                        projection)
  {
    ghost var keep := Where(filters, file.names, engine, elsewhere);
    var exprs := PushFilters(filters, file.names);
    ArrivingSuits(PushedExprs(filters, file.names), file, engine);
    ArrivingIsImplied(file, filters, engine, elsewhere);
    var delivered := ScanWithOptions(file, ScanOptions(projection, exprs, -1), split, cheapestLeaf, keep, keepProjected,
                                     FloatEngine(engine, file.types));
    if delivered.Err? {
      return Err;
    }
    FilterProjected(Read(file, None), keep, keepProjected, projection);
    ProjectedPicks(Filter(keep, Read(file, None)), projection);
    answer := Ok(Filter(keepProjected, Flatten(delivered.value)));
  }

  // ----- Iceberg -----

  lemma {:induction false} FilterThroughWider(keep: Row -> bool, scan: Row -> bool, rows: seq<Row>)
    requires forall r | r in rows && keep(r) :: scan(r)
    ensures Filter(keep, Filter(scan, rows)) == Filter(keep, rows)
  {
    if rows != [] {
      FilterThroughWider(keep, scan, rows[1..]);
      var rest := Filter(scan, rows[1..]);
      if scan(rows[0]) {
        assert ([rows[0]] + rest)[1..] == rest;
      } else {
        assert [] + rest == rest;
      }
    }
  }

  /** What iceberg-go yields of a table's rows under a row filter. */
  function IcebergScan(filter: Option<I.RowFilter>, schema: seq<string>, cmp: I.Comparator): Row -> bool {
    (r: Row) => filter.None? || I.EvalFilter(filter.value, r, FieldsByName(schema), cmp).True?
  }

  /** An Iceberg scan with its projection plan: schema order, then the permutation. */
  method IcebergDelivers(batches: seq<Batch<Row>>, schema: seq<string>, projection: Option<seq<int>>)
      returns (delivered: Result<seq<Batch<Row>>>)
    requires |schema| > 0 && UniqueNames(schema)
    ensures delivered.Ok? <==> projection.None? || InRange(projection.value, |schema|)
    ensures delivered.Ok? ==> delivered.value == Delivered(batches, projection)
    ensures delivered.Ok? ==> PicksBatches(delivered.value, batches, projection)
  {
    DeliveredPicks(batches, projection);
    if projection.None? {
      return Ok(batches);
    }
    var plan := ProjectionPlan(schema, projection.value);
    if plan.Err? {
      return Err;
    }
    var read := IcebergRead(batches, schema, plan.value.names);
    if plan.value.perm.None? {
      return Ok(read);
    }
    var all := ReadProjected(read, plan.value.perm.value,
                             |SelectedFields(schema, set x | x in plan.value.names, |schema|)|);
    delivered := Ok(all);
  }

  lemma {:induction false} ResolvedArrives(e: Expr, columns: I.Resolver)
    requires I.Resolved(e, columns)
    ensures I.Resolved(Arriving(e), columns)
  {
    match e
    case And(a, b) =>
      ResolvedArrives(a, columns);
      ResolvedArrives(b, columns);
    case Or(a, b) =>
      ResolvedArrives(a, columns);
      ResolvedArrives(b, columns);
    case Not(x) => ResolvedArrives(x, columns);
    case _ =>
  }

  /**
   * On this row iceberg-go decides what arrives as the engine decides what it pushed; if they differ by a literal, as
   * an engine in the float order does, of a predicate that only gets weaker.
   */
  ghost predicate SuitsScan(e: Expr, types: seq<DataType>, r: Row, engine: Engine, cmp: I.Comparator) {
    if Arriving(e) == e then I.ScanAgreesOn(e, r, engine, cmp)
    else
      && TypedRow(r, types) && AgreesOn(e, types, r, engine) && HarmlessTree(e, false, types)
      && I.ScanAgreesOn(Arriving(e), r, FloatEngine(engine, types), cmp)
  }

  /** A row on which a kept conjunct is true passes its translation. */
  lemma KeptConjunctAccepts(e: Expr, types: seq<DataType>, r: Row, columns: I.Resolver, engine: Engine,
                            cmp: I.Comparator)
    requires I.ConvertExpr(Arriving(e)).Some? && I.Resolved(e, columns) && SuitsScan(e, types, r, engine, cmp)
    requires Eval(e, r, engine).True?
    ensures I.EvalFilter(I.ConvertExpr(Arriving(e)).value, r, columns, cmp).True?
  {
    ResolvedArrives(e, columns);
    if Arriving(e) == e {
      I.ConvertKeepsMeaning(e, r, columns, cmp, engine);
    } else {
      HarmlessArrives(e, false, types, r, engine);
      I.ConvertKeepsMeaning(Arriving(e), r, columns, cmp, FloatEngine(engine, types));
    }
  }

  /** The conjuncts that are not dropped suit the scan of the rows. */
  ghost predicate SuitsTable(exprs: seq<Expr>, rows: seq<Row>, types: seq<DataType>, binds: I.Binds, engine: Engine,
                             cmp: I.Comparator)
  {
    forall k, r | 0 <= k < |exprs| && r in rows && I.Kept(Arriving(exprs[k]), binds) ::
      SuitsScan(exprs[k], types, r, engine, cmp)
  }

  lemma ScanIsWider(schema: seq<string>, types: seq<DataType>, rows: seq<Row>, filters: seq<EngineExpr>, binds: I.Binds,
                    engine: Engine, cmp: I.Comparator, elsewhere: Elsewhere, r: Row)
    requires SuitsTable(PushedExprs(filters, schema), rows, types, binds, engine, cmp)
    requires r in rows && Where(filters, schema, engine, elsewhere)(r)
    ensures IcebergScan(I.Conjunction(ArrivingExprs(PushedExprs(filters, schema)), binds), schema, cmp)(r)
  {
    var ps := PushedExprs(filters, schema);
    var there := ArrivingExprs(ps);
    I.ConjunctionHolds(there, binds, r, FieldsByName(schema), cmp);
    forall k | 0 <= k < |there| && I.Kept(there[k], binds)
      ensures I.EvalFilter(I.ConvertExpr(there[k]).value, r, FieldsByName(schema), cmp).True?
    {
      PushedIsImplied(filters, schema, engine, elsewhere, r, k);
      PushedIsResolved(filters, schema, k);
      KeptConjunctAccepts(ps[k], types, r, FieldsByName(schema), engine, cmp);
    }
  }

  /** The same promise for an Iceberg table, whatever the engine makes of NULL IN (): the converter refuses IN (). */
  method IcebergQuery(schema: seq<string>, rows: seq<Row>, filters: seq<EngineExpr>, projection: Option<seq<int>>,
                      split: Splitter, binds: I.Binds, cmp: I.Comparator, keepProjected: Row -> bool,
                      ghost types: seq<DataType>, ghost engine: Engine, ghost elsewhere: Elsewhere)
      returns (answer: Result<seq<Row>>)
    requires 0 < |schema| <= SignedMax(W64) && UniqueNames(schema) && Splits(split)
    requires TypedPushed(filters, schema) && SuitsTable(PushedExprs(filters, schema), rows, types, binds, engine, cmp)
    requires SameOnProjection(Where(filters, schema, engine, elsewhere), keepProjected, projection)
    ensures answer.Ok? <==> projection.None? || InRange(projection.value, |schema|)
    ensures answer.Ok? ==>
              answer.value == Projected(Filter(Where(filters, schema, engine, elsewhere), rows), projection)
    ensures answer.Ok? ==>
              PicksRows(answer.value, Filter(Where(filters, schema, engine, elsewhere), rows), projection)
  {
    ghost var keep := Where(filters, schema, engine, elsewhere);
    var exprs := PushFilters(filters, schema);
    var filter := I.ConvertFilters(exprs, binds);
    var scan := IcebergScan(filter, schema, cmp);
    forall r | r in rows && keep(r) ensures scan(r) {
      ScanIsWider(schema, types, rows, filters, binds, engine, cmp, elsewhere, r);
    }
    FilterThroughWider(keep, scan, rows);
    var batches := split(Filter(scan, rows));
    var delivered := IcebergDelivers(batches, schema, projection);
    if delivered.Err? {
      return Err;
    }
    FlattenDelivered(batches, projection);
    FilterProjected(Filter(scan, rows), keep, keepProjected, projection);
    ProjectedPicks(Filter(keep, rows), projection);
    answer := Ok(Filter(keepProjected, Flatten(delivered.value)));
  }
}
