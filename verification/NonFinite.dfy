/** Float literals that JSON cannot carry: exactly when a pushed test with them changes the answer. */
module NonFinite {
  import opened Wrappers
  import opened Values
  import opened Predicates
  import opened Skip
  import opened SkipSoundness
  import opened Schema
  import opened Stats
  import opened Bloom
  import opened RowGroups
  import opened Pushdown
  import opened Wire
  import opened ZeroedFloats
  import opened EndToEnd
  import I = IcebergConvert

  /** The WHERE clause is one test of a float column: a comparison, BETWEEN or IN with floats, under any NOTs. */
  predicate FloatClause(e: EngineExpr, names: seq<string>, types: seq<DataType>) {
    && |names| == |types| <= SignedMax(W64) && Classify(e, names).Some?
    && FloatTest(TestOf(e, names)) && FloatColumn(TestColumn(TestOf(e, names)).index, types)
  }

  function TestOf(e: EngineExpr, names: seq<string>): Expr
    requires Classify(e, names).Some?
  {
    GoExpr(Classify(e, names).value)
  }

  lemma {:induction false} FloatClauseIsTyped(e: EngineExpr, names: seq<string>)
    requires Classify(e, names).Some? && FloatTest(TestOf(e, names))
    ensures EveryScalar(e, TypedScalar)
  {
    match e
    case BinaryExpr(l, op, r) =>
      if LiteralOf(r).Some? { LiteralKeepsValue(r.scalar); }
      if LiteralOf(l).Some? { LiteralKeepsValue(l.scalar); }
    case BetweenExpr(_, _, low, high) =>
      LiteralKeepsValue(low.scalar);
      LiteralKeepsValue(high.scalar);
    case InListExpr(_, list, _) =>
      var literals := TestOf(e, names).list;
      forall k | 0 <= k < |list| ensures EveryScalar(list[k], TypedScalar) {
        assert FloatOf(literals[k]).Some?;
        LiteralKeepsValue(list[k].scalar);
      }
    case NotExpr(x) => FloatClauseIsTyped(x, names);
    case _ =>
  }

  /** The clause is pushed as its test, which arrives with zeros for what is not finite. */
  lemma ClauseArrives(e: EngineExpr, names: seq<string>, types: seq<DataType>)
    requires FloatClause(e, names, types)
    ensures PushedExprs([e], names) == [TestOf(e, names)] && TypedPushed([e], names)
    ensures ArrivingExprs([TestOf(e, names)]) == [Arriving(TestOf(e, names))]
    ensures DecodeAll(Documents(Recognized([e], names))) == Ok([Arriving(TestOf(e, names))])
  {
    FloatClauseIsTyped(e, names);
    assert Recognized([e][1..], names) == [];
    assert Recognized([e], names) == [Classify(e, names).value];
    PushedArrives([e], names);
  }

  lemma ClauseIsTest(e: EngineExpr, names: seq<string>, r: Row, engine: Engine, elsewhere: Elsewhere)
    requires Classify(e, names).Some?
    ensures Where([e], names, engine, elsewhere)(r) <==> Eval(TestOf(e, names), r, engine).True?
  {
    ClassifyKeepsMeaning(e, r, names, engine, elsewhere);
    assert [e][0] == e;
  }

  /** A row with one value, in column c. */
  function FloatRow(c: nat, x: Float): (r: Row)
    ensures CellAt(r, c) == Val(FloatVal(x)) && forall i | i != c :: CellAt(r, i).Null?
  {
    seq(c + 1, i => if i == c then Val(FloatVal(x)) else Null)
  }

  /** The clause holds of such a row when its test does. */
  lemma ClauseOnFloat(e: EngineExpr, names: seq<string>, types: seq<DataType>, x: Float, engine: Engine,
                      elsewhere: Elsewhere)
    requires FloatClause(e, names, types) && EngineAgrees(engine, types)
    ensures var test := TestOf(e, names);
            Where([e], names, engine, elsewhere)(FloatRow(TestColumn(test).index, x)) <==> Meets(test, x)
  {
    var test := TestOf(e, names);
    var row := FloatRow(TestColumn(test).index, x);
    AgreeingEngineAgreesOn(test, types, row, engine);
    EvalsAsFloat(test, types, row, engine);
    ClauseIsTest(e, names, row, engine, elsewhere);
  }

  // ----- Parquet -----

  /** Filtering what the pushed-down scan reads is filtering the whole file. */
  ghost predicate AnswerKept(file: File, e: EngineExpr, engine: Engine, elsewhere: Elsewhere)
    requires WellFormed(file)
  {
    var exprs := DecodeAll(Documents(Recognized([e], file.names)));
    exprs.Ok? &&
    var keep := Where([e], file.names, engine, elsewhere);
    Filter(keep, Read(file, Some(Survivors(file.groups, Verdict(file, exprs.value), |file.groups|)))) ==
    Filter(keep, Read(file, None))
  }

  /** A truthful file of the schema that suits the engine and what the clause asks for. */
  ghost predicate SuitedFile(file: File, e: EngineExpr, names: seq<string>, types: seq<DataType>, engine: Engine) {
    && file.names == names && file.types == types && WellFormed(file) && TruthfulFile(file)
    && SuitsFile(PushedExprs([e], names), file, engine)
  }

  lemma HarmlessKeepsAnswer(file: File, e: EngineExpr, names: seq<string>, types: seq<DataType>, engine: Engine,
                            elsewhere: Elsewhere)
    requires FloatClause(e, names, types) && HarmlessTest(TestOf(e, names), false)
    requires SuitedFile(file, e, names, types, engine)
    requires NoEmptyLists(TestOf(e, names)) || engine.nullInEmpty.Unknown?
    ensures AnswerKept(file, e, engine, elsewhere)
  {
    var exprs := [Arriving(TestOf(e, names))];
    ClauseArrives(e, names, types);
    HarmlessTreeOfTest(TestOf(e, names), false, types);
    ArrivingSuits([TestOf(e, names)], file, engine);
    ArrivingIsImplied(file, [e], engine, elsewhere);
    SelectionKeepsAnswer(file, exprs, Some(Survivors(file.groups, Verdict(file, exprs), |file.groups|)),
                         Where([e], names, engine, elsewhere), FloatEngine(engine, types));
  }

  // ----- A file that loses a row -----

  /** The chunk's bounds: those of the file's one number, NaNs being left out. */
  function ChunkOf(b: Float, dt: DataType): ChunkStats
    requires IsFloat(dt)
  {
    var stored := Store(FloatVal(b), dt);
    ChunkStats(KindOf(stored), None, Some(stored), Some(stored))
  }

  /** One row group with x and b in column c, and bounds around b. */
  function TwoRows(names: seq<string>, types: seq<DataType>, c: nat, x: Float, b: Float): File
    requires FloatColumn(c, types)
  {
    File(names, types, seq(|types|, i => Leaf(i)),
         [RowGroup([FloatRow(c, x), FloatRow(c, b)],
                   (leaf: int) => if leaf == c then Some(ChunkOf(b, types[c])) else None,
                   BloomFile(false, (leaf: int) => None))])
  }

  lemma TwoRowsAreTruthful(names: seq<string>, types: seq<DataType>, c: nat, x: Float, b: Float)
    requires FloatColumn(c, types) && (x == b || x.NaN?) && !b.NaN?
    ensures TruthfulFile(TwoRows(names, types, c, x, b))
  {
    var file := TwoRows(names, types, c, x, b);
    var g := file.groups[0];
    ReinterpretInvertsStore(FloatVal(b), types[c]);
    forall r | r in g.rows ensures r == FloatRow(c, x) || r == FloatRow(c, b) {}
    forall i | 0 <= i < |types| ensures StorableColumn(types[i], i, g.rows) {}
    assert TruthfulChunk(ChunkOf(b, types[c]), types[c], c, g.rows);
    assert TruthfulGroup(g, file);
  }

  lemma TwoRowsSuit(e: Expr, names: seq<string>, types: seq<DataType>, x: Float, b: Float, engine: Engine)
    requires FloatTest(e) && FloatColumn(TestColumn(e).index, types) && EngineAgrees(engine, types)
    requires (x.NaN? ==> RejectsNaNs(e, false)) && !b.NaN?
    ensures SuitsFile([e], TwoRows(names, types, TestColumn(e).index, x, b), engine)
  {
    var c := TestColumn(e).index;
    var file := TwoRows(names, types, c, x, b);
    var g := file.groups[0];
    forall r | r in g.rows ensures SuitsRow(e, g, file, r, engine) {
      AgreeingEngineAgreesOn(e, types, r, engine);
      var exposed := (i: int) => ExposedIn(g, file, r, i);
      if x.NaN? {
        LessExposedIsHarmless(e, false, exposed, (i: int) => true);
      } else {
        assert r == FloatRow(c, x) || r == FloatRow(c, b);
        NothingExposedIsHarmless(e, false, exposed);
      }
    }
  }

  /** The statistics say that every number in column c is b. */
  ghost predicate OnlyValue(st: GroupStats, c: int, dt: DataType, b: Float) {
    c in st.cols && IsFloat(dt) && !b.NaN? && st.cols[c] == ColStats(dt, Some((FloatVal(b), FloatVal(b))), None)
  }

  lemma ListIsRefuted(c: Column, negated: bool, list: seq<Literal>, st: GroupStats, bloom: Prober, dt: DataType,
                      b: Float)
    requires forall k | 0 <= k < |list| :: FloatOf(list[k]).Some? && IsFinite(FloatOf(list[k]).value)
    requires OnlyValue(st, c.index, dt, b) && EqualsOne(b, list) == negated
    ensures CanSkipInList(c.index, negated, list, st, Some(bloom))
  {
    var cs := st.cols[c.index];
    forall k | 0 <= k < |list| ensures UsableLiteral(list[k], dt) == Some(FloatVal(FloatOf(list[k]).value)) {}
    if negated {
      var k :| 0 <= k < |list| && CmpFloat(b, FloatOf(list[k]).value) == 0;
      assert IsElement(list[k], cs);
    } else {
      forall k | 0 <= k < |list| ensures InElementAbsent(c.index, list[k], cs, Some(bloom)) {
        assert CmpFloat(b, FloatOf(list[k]).value) != 0;
      }
    }
  }

  lemma {:induction false} LeafIsRefuted(e: Expr, st: GroupStats, bloom: Prober, dt: DataType, b: Float)
    requires FloatTest(e) && !e.Not? && Arriving(e) == e
    requires OnlyValue(st, e.column.index, dt, b) && !Meets(e, b)
    ensures CanSkip(e, st, Some(bloom))
  {
    match e
    case Compare(_, _, _) =>
    case Between(_, _, _, _) =>
    case InList(c, negated, list) =>
      forall k | 0 <= k < |list| ensures IsFinite(FloatOf(list[k]).value) {
        assert list[k] == ArrivingLiteral(list[k]);
      }
      ListIsRefuted(c, negated, list, st, bloom, dt, b);
  }

  /** A test that the only number fails lets the evaluator skip the row group. */
  lemma {:induction false} TestIsRefuted(e: Expr, negated: bool, st: GroupStats, bloom: Prober, dt: DataType, b: Float)
    requires FloatTest(e) && Arriving(e) == e
    requires OnlyValue(st, TestColumn(e).index, dt, b) && Meets(e, b) == negated
    ensures CanSkip(if negated then Not(e) else e, st, Some(bloom))
  {
    if e.Not? {
      TestIsRefuted(e.inner, !negated, st, bloom, dt, b);
    } else if negated {
      LeafIsRefuted(Negate(e), st, bloom, dt, b);
    } else {
      LeafIsRefuted(e, st, bloom, dt, b);
    }
  }

  lemma {:induction false} ArrivesOnce(e: Expr)
    requires FloatTest(e)
    ensures Arriving(Arriving(e)) == Arriving(e)
  {
    match e
    case InList(_, _, list) =>
      var there := ArrivingLiterals(list);
      forall k | 0 <= k < |list| ensures ArrivingLiterals(there)[k] == there[k] {
        assert there[k] == ArrivingLiteral(list[k]);
      }
      assert ArrivingLiterals(there) == there;
    case Not(x) => ArrivesOnce(x);
    case _ =>
  }

  lemma {:induction false} TestMentions(e: Expr)
    requires FloatTest(e)
    ensures Mentions(e, TestColumn(e))
  {
    if e.Not? {
      TestMentions(e.inner);
    }
  }

  lemma TwoRowsAreRuledOut(e: Expr, names: seq<string>, types: seq<DataType>, x: Float, b: Float)
    requires FloatTest(e) && Arriving(e) == e && FloatColumn(TestColumn(e).index, types) && |names| == |types|
    requires names[TestColumn(e).index] == TestColumn(e).name && !b.NaN? && !Meets(e, b)
    ensures var file := TwoRows(names, types, TestColumn(e).index, x, b); Verdict(file, [e])(file.groups[0])
  {
    var c := TestColumn(e).index;
    var file := TwoRows(names, types, c, x, b);
    var st := RowGroupStatsSpec(file.groups[0], file, AllFields([e], file));
    TestMentions(e);
    assert Mentions([e][0], TestColumn(e)) && KnownColumn(TestColumn(e), file);
    AllFieldsAreReferenced([e], file, c);
    AdapterLosesNothing(FloatVal(b), FloatVal(b), None, types[c]);
    TestIsRefuted(e, false, st, ProberOf(file.groups[0], file), types[c], b);
    assert CanSkip([e][0], st, Some(ProberOf(file.groups[0], file)));
  }

  /** The clause's column is the first of its name. */
  lemma TestColumnIsNamed(e: EngineExpr, names: seq<string>, types: seq<DataType>)
    requires FloatClause(e, names, types)
    ensures names[TestColumn(TestOf(e, names)).index] == TestColumn(TestOf(e, names)).name
  {
    RecognizedResolves(e, names);
    TestResolves(TestOf(e, names), FieldsByName(names));
  }

  lemma {:induction false} TestResolves(e: Expr, columns: I.Resolver)
    requires FloatTest(e) && I.Resolved(e, columns)
    ensures columns(TestColumn(e).name) == TestColumn(e).index
  {
    if e.Not? {
      TestResolves(e.inner, columns);
    }
  }

  /** A file whose first row matches loses it when its only row group is ruled out. */
  lemma FirstRowIsLost(groups: seq<RowGroup>, out: RowGroup -> bool, keep: Row -> bool)
    requires |groups| == 1 && out(groups[0]) && groups[0].rows != [] && keep(groups[0].rows[0])
    ensures Filter(keep, ReadSome(groups, Survivors(groups, out, 1))) != Filter(keep, ReadFirst(groups, 1))
  {
    assert Survivors(groups, out, 0) == [];
    assert ReadFirst(groups, 0) == [];
    assert ReadFirst(groups, 1) == groups[0].rows;
  }

  /** The file for a test that is not harmless; its first row meets the test and its row group is ruled out. */
  lemma HarmfulFile(test: Expr, names: seq<string>, types: seq<DataType>, engine: Engine)
      returns (x: Float, file: File)
    requires FloatTest(test) && FloatColumn(TestColumn(test).index, types) && |names| == |types|
    requires names[TestColumn(test).index] == TestColumn(test).name
    requires !HarmlessTest(test, false) && EngineAgrees(engine, types)
    ensures file.names == names && file.types == types && TruthfulFile(file) && SuitsFile([test], file, engine)
    ensures |file.groups| == 1 && Verdict(file, [Arriving(test)])(file.groups[0])
    ensures |file.groups[0].rows| > 0 && file.groups[0].rows[0] == FloatRow(TestColumn(test).index, x) && Meets(test, x)
  {
    ArrivingFloatTest(test);
    LostIsLost(test, false);
    x := Lost(test, false);
    var b := if x.NaN? then PosInf else x;
    file := TwoRows(names, types, TestColumn(test).index, x, b);
    TwoRowsAreTruthful(names, types, TestColumn(test).index, x, b);
    TwoRowsSuit(test, names, types, x, b, engine);
    ArrivesOnce(test);
    TwoRowsAreRuledOut(Arriving(test), names, types, x, b);
  }

  lemma HarmfulChangesAnswer(e: EngineExpr, names: seq<string>, types: seq<DataType>, engine: Engine,
                             elsewhere: Elsewhere) returns (file: File)
    requires FloatClause(e, names, types) && !HarmlessTest(TestOf(e, names), false) && EngineAgrees(engine, types)
    ensures SuitedFile(file, e, names, types, engine) && !AnswerKept(file, e, engine, elsewhere)
  {
    TestColumnIsNamed(e, names, types);
    var x;
    x, file := HarmfulFile(TestOf(e, names), names, types, engine);
    ClauseArrives(e, names, types);
    ClauseOnFloat(e, names, types, x, engine, elsewhere);
    FirstRowIsLost(file.groups, Verdict(file, [Arriving(TestOf(e, names))]), Where([e], names, engine, elsewhere));
  }

  /**
   * A pushed test of a float column keeps the answer of every Parquet file that suits it exactly when replacing what is
   * not finite by zero only lets more through.
   */
  lemma FloatTestKeepsAnswerIffHarmless(e: EngineExpr, names: seq<string>, types: seq<DataType>, engine: Engine,
                                        elsewhere: Elsewhere)
    requires FloatClause(e, names, types) && EngineAgrees(engine, types)
    requires NoEmptyLists(TestOf(e, names)) || engine.nullInEmpty.Unknown?
    ensures HarmlessTest(TestOf(e, names), false) <==>
            forall file | SuitedFile(file, e, names, types, engine) :: AnswerKept(file, e, engine, elsewhere)
  {
    if HarmlessTest(TestOf(e, names), false) {
      forall file | SuitedFile(file, e, names, types, engine) ensures AnswerKept(file, e, engine, elsewhere) {
        HarmlessKeepsAnswer(file, e, names, types, engine, elsewhere);
      }
    } else {
      var file := HarmfulChangesAnswer(e, names, types, engine, elsewhere);
    }
  }

  /** WHERE a < 'Infinity' arrives as a < 0.0 and loses a row. */
  lemma InfinityChangesTheAnswer(engine: Engine, elsewhere: Elsewhere) returns (file: File)
    requires EngineAgrees(engine, [Float64Type])
    ensures var e := BinaryExpr(ColumnExpr("a"), OpLt, LiteralExpr(ScalarFloat64(Some(PosInf))));
            SuitedFile(file, e, ["a"], [Float64Type], engine) && !AnswerKept(file, e, engine, elsewhere)
  {
    var e := BinaryExpr(ColumnExpr("a"), OpLt, LiteralExpr(ScalarFloat64(Some(PosInf))));
    assert IndexOf("a", ["a"]) == Some(0);
    assert TestOf(e, ["a"]) == Compare(Column("a", 0), Lt, LitFloat64(PosInf));
    file := HarmfulChangesAnswer(e, ["a"], [Float64Type], engine, elsewhere);
  }

  // ----- Iceberg -----

  /** iceberg-go decides comparisons of this float with finite ones in the float order. */
  ghost predicate OrdersFloat(cmp: I.Comparator, x: Float) {
    forall c, op, f | IsFinite(f) :: cmp(c, FloatVal(x), op, Floating(f)) <==> Holds(op, CmpFloat(x, f))
  }

  /** It does so for every float, with NaN the greatest. */
  ghost predicate FloatOrder(cmp: I.Comparator) {
    forall x :: OrdersFloat(cmp, x)
  }

  ghost predicate TypedTable(rows: seq<Row>, types: seq<DataType>) {
    forall r | r in rows :: TypedRow(r, types)
  }

  /** Filtering what the pushed-down Iceberg scan yields is filtering the whole table. */
  ghost predicate ScanKept(rows: seq<Row>, e: EngineExpr, names: seq<string>, binds: I.Binds, cmp: I.Comparator,
                           engine: Engine, elsewhere: Elsewhere)
  {
    var exprs := DecodeAll(Documents(Recognized([e], names)));
    exprs.Ok? &&
    var keep := Where([e], names, engine, elsewhere);
    Filter(keep, Filter(IcebergScan(I.Conjunction(exprs.value, binds), names, cmp), rows)) == Filter(keep, rows)
  }

  lemma OneConjunct(e: Expr, binds: I.Binds)
    ensures I.Conjunction([e], binds) == if I.Kept(e, binds) then I.ConvertExpr(e) else None
  {
    assert [e][..0] == [] && I.Conjunction([], binds) == None;
  }

  /** Where engine and scan are both in the float order, they agree. */
  lemma {:induction false} FloatOrderAgrees(e: Expr, types: seq<DataType>, r: Row, engine: Engine, cmp: I.Comparator)
    requires FloatTest(e) && Arriving(e) == e && FloatColumn(TestColumn(e).index, types)
    requires AgreesOn(e, types, r, engine) && OrdersCell(cmp, CellAt(r, TestColumn(e).index))
    ensures I.ScanAgreesOn(e, r, engine, cmp)
  {
    match e
    case Compare(c, op, l) => LiteralAgrees(c.index, op, l, types, r, engine, cmp);
    case Between(c, negated, low, high) =>
      LiteralAgrees(c.index, if negated then Lt else GtEq, low, types, r, engine, cmp);
      LiteralAgrees(c.index, if negated then Gt else LtEq, high, types, r, engine, cmp);
    case InList(c, _, list) =>
      forall k | 0 <= k < |list| ensures I.ScanAgrees(c.index, Eq, list[k], r, engine, cmp) {
        assert list[k] == ArrivingLiteral(list[k]);
        LiteralAgrees(c.index, Eq, list[k], types, r, engine, cmp);
      }
    case Not(x) => FloatOrderAgrees(x, types, r, engine, cmp);
  }

  ghost predicate OrdersCell(cmp: I.Comparator, cell: Cell) {
    cell.Val? ==> cell.v.FloatVal? && OrdersFloat(cmp, cell.v.f)
  }

  lemma LiteralAgrees(c: int, op: CompareOp, l: Literal, types: seq<DataType>, r: Row, engine: Engine,
                      cmp: I.Comparator)
    requires FloatColumn(c, types) && FloatOf(l).Some? && IsFinite(FloatOf(l).value)
    requires Agrees(c, l, types, r, engine) && OrdersCell(cmp, CellAt(r, c))
    ensures I.ScanAgrees(c, op, l, r, engine, cmp)
  {
    if CellAt(r, c).Val? {
      var x, f := CellAt(r, c).v, FloatOf(l).value;
      AgreesInFloats(c, l, types, r, engine);
      assert x == FloatVal(x.f) && Denotes(l) == Floating(f);
    }
  }

  lemma WiderScanKeepsAnswer(rows: seq<Row>, e: EngineExpr, names: seq<string>, types: seq<DataType>, binds: I.Binds,
                             cmp: I.Comparator, engine: Engine, elsewhere: Elsewhere)
    requires FloatClause(e, names, types)
    requires forall r | r in rows && Where([e], names, engine, elsewhere)(r) ::
               IcebergScan(I.Conjunction([Arriving(TestOf(e, names))], binds), names, cmp)(r)
    ensures ScanKept(rows, e, names, binds, cmp, engine, elsewhere)
  {
    ClauseArrives(e, names, types);
    FilterThroughWider(Where([e], names, engine, elsewhere),
                       IcebergScan(I.Conjunction([Arriving(TestOf(e, names))], binds), names, cmp), rows);
  }

  lemma OnlyRowIsFiltered(keep: Row -> bool, scan: Row -> bool, row: Row)
    requires keep(row) && !scan(row)
    ensures Filter(keep, Filter(scan, [row])) != Filter(keep, [row])
  {
    assert [row][1..] == [];
    assert Filter(scan, [row]) == [] && Filter(keep, [row]) == [row];
  }

  lemma FloatRowIsTyped(c: nat, x: Float, types: seq<DataType>)
    requires FloatColumn(c, types)
    ensures TypedTable([FloatRow(c, x)], types)
  {
  }

  lemma LostFloatChangesAnswer(e: EngineExpr, names: seq<string>, types: seq<DataType>, x: Float, binds: I.Binds,
                               cmp: I.Comparator, engine: Engine, elsewhere: Elsewhere) returns (rows: seq<Row>)
    requires FloatClause(e, names, types) && EngineAgrees(engine, types) && Meets(TestOf(e, names), x)
    requires var row := FloatRow(TestColumn(TestOf(e, names)).index, x);
             !IcebergScan(I.Conjunction([Arriving(TestOf(e, names))], binds), names, cmp)(row)
    ensures TypedTable(rows, types) && !ScanKept(rows, e, names, binds, cmp, engine, elsewhere)
  {
    var row := FloatRow(TestColumn(TestOf(e, names)).index, x);
    rows := [row];
    FloatRowIsTyped(TestColumn(TestOf(e, names)).index, x, types);
    ClauseArrives(e, names, types);
    ClauseOnFloat(e, names, types, x, engine, elsewhere);
    OnlyRowIsFiltered(Where([e], names, engine, elsewhere),
                      IcebergScan(I.Conjunction([Arriving(TestOf(e, names))], binds), names, cmp), row);
  }

  lemma HarmlessTestSuitsScan(test: Expr, types: seq<DataType>, r: Row, engine: Engine, cmp: I.Comparator)
    requires FloatTest(test) && FloatColumn(TestColumn(test).index, types) && HarmlessTest(test, false)
    requires EngineAgrees(engine, types) && FloatOrder(cmp) && TypedRow(r, types)
    ensures SuitsScan(test, types, r, engine, cmp)
  {
    AgreeingEngineAgreesOn(test, types, r, engine);
    if Arriving(test) == test {
      FloatOrderAgrees(test, types, r, engine, cmp);
    } else {
      ArrivingFloatTest(test);
      HarmlessTreeOfTest(test, false, types);
      AgreesOnArrives(test, types, r, engine);
      ArrivesOnce(test);
      FloatOrderAgrees(Arriving(test), types, r, FloatEngine(engine, types), cmp);
    }
  }

  lemma HarmlessScanKeepsAnswer(rows: seq<Row>, e: EngineExpr, names: seq<string>, types: seq<DataType>, binds: I.Binds,
                                cmp: I.Comparator, engine: Engine, elsewhere: Elsewhere)
    requires FloatClause(e, names, types) && EngineAgrees(engine, types) && FloatOrder(cmp) && TypedTable(rows, types)
    requires HarmlessTest(TestOf(e, names), false) || !I.Kept(Arriving(TestOf(e, names)), binds)
    ensures ScanKept(rows, e, names, binds, cmp, engine, elsewhere)
  {
    var test := TestOf(e, names);
    ClauseArrives(e, names, types);
    forall r | r in rows && I.Kept(Arriving(test), binds) ensures SuitsScan(test, types, r, engine, cmp) {
      HarmlessTestSuitsScan(test, types, r, engine, cmp);
    }
    forall r | r in rows && Where([e], names, engine, elsewhere)(r)
      ensures IcebergScan(I.Conjunction([Arriving(test)], binds), names, cmp)(r)
    {
      ScanIsWider(names, types, rows, [e], binds, engine, cmp, elsewhere, r);
    }
    WiderScanKeepsAnswer(rows, e, names, types, binds, cmp, engine, elsewhere);
  }

  /** On a float the scan decides what arrived. */
  lemma ScanOnFloat(e: Expr, names: seq<string>, types: seq<DataType>, x: Float, engine: Engine, binds: I.Binds,
                    cmp: I.Comparator)
    requires FloatTest(e) && Arriving(e) == e && FloatColumn(TestColumn(e).index, types)
    requires I.Resolved(e, FieldsByName(names)) && I.Kept(e, binds)
    requires EngineAgrees(engine, types) && OrdersFloat(cmp, x)
    ensures IcebergScan(I.Conjunction([e], binds), names, cmp)(FloatRow(TestColumn(e).index, x)) <==> Meets(e, x)
  {
    var row := FloatRow(TestColumn(e).index, x);
    OneConjunct(e, binds);
    AgreeingEngineAgreesOn(e, types, row, engine);
    FloatOrderAgrees(e, types, row, engine, cmp);
    I.ConvertKeepsMeaning(e, row, FieldsByName(names), cmp, engine);
    EvalsAsFloat(e, types, row, engine);
  }

  lemma HarmfulTestIsFiltered(test: Expr, names: seq<string>, types: seq<DataType>, binds: I.Binds, cmp: I.Comparator,
                              engine: Engine) returns (x: Float)
    requires FloatTest(test) && FloatColumn(TestColumn(test).index, types) && I.Resolved(test, FieldsByName(names))
    requires EngineAgrees(engine, types) && FloatOrder(cmp)
    requires !HarmlessTest(test, false) && I.Kept(Arriving(test), binds)
    ensures Meets(test, x)
    ensures !IcebergScan(I.Conjunction([Arriving(test)], binds), names, cmp)(FloatRow(TestColumn(test).index, x))
  {
    ArrivingFloatTest(test);
    LostIsLost(test, false);
    x := Lost(test, false);
    ResolvedArrives(test, FieldsByName(names));
    ArrivesOnce(test);
    ScanOnFloat(Arriving(test), names, types, x, engine, binds, cmp);
  }

  lemma HarmfulScanChangesAnswer(e: EngineExpr, names: seq<string>, types: seq<DataType>, binds: I.Binds,
                                 cmp: I.Comparator, engine: Engine, elsewhere: Elsewhere) returns (rows: seq<Row>)
    requires FloatClause(e, names, types) && EngineAgrees(engine, types) && FloatOrder(cmp)
    requires !HarmlessTest(TestOf(e, names), false) && I.Kept(Arriving(TestOf(e, names)), binds)
    ensures TypedTable(rows, types) && !ScanKept(rows, e, names, binds, cmp, engine, elsewhere)
  {
    RecognizedResolves(e, names);
    var x := HarmfulTestIsFiltered(TestOf(e, names), names, types, binds, cmp, engine);
    rows := LostFloatChangesAnswer(e, names, types, x, binds, cmp, engine, elsewhere);
  }

  /**
   * A pushed test of a float column keeps the answer of every Iceberg table under the same condition, or when what
   * arrives does not convert or bind and is dropped.
   */
  lemma FloatTestScanKeepsAnswerIffHarmless(e: EngineExpr, names: seq<string>, types: seq<DataType>, binds: I.Binds,
                                            cmp: I.Comparator, engine: Engine, elsewhere: Elsewhere)
    requires FloatClause(e, names, types) && EngineAgrees(engine, types) && FloatOrder(cmp)
    ensures HarmlessTest(TestOf(e, names), false) || !I.Kept(Arriving(TestOf(e, names)), binds) <==>
            forall rows | TypedTable(rows, types) :: ScanKept(rows, e, names, binds, cmp, engine, elsewhere)
  {
    if HarmlessTest(TestOf(e, names), false) || !I.Kept(Arriving(TestOf(e, names)), binds) {
      forall rows | TypedTable(rows, types) ensures ScanKept(rows, e, names, binds, cmp, engine, elsewhere) {
        HarmlessScanKeepsAnswer(rows, e, names, types, binds, cmp, engine, elsewhere);
      }
    } else {
      var rows := HarmfulScanChangesAnswer(e, names, types, binds, cmp, engine, elsewhere);
    }
  }

  // ----- A scan that compares NaN otherwise -----

  /** iceberg-go decides as IEEE operators do: a NaN satisfies <> alone. */
  ghost predicate IeeeOrder(cmp: I.Comparator) {
    forall c, x, op, f | IsFinite(f) ::
      cmp(c, FloatVal(x), op, Floating(f)) <==> if x.NaN? then op.Neq? else Holds(op, CmpFloat(x, f))
  }

  /** What such a scan decides for NaN, against finite literals. */
  predicate ScansNaN(e: Expr)
    requires FloatTest(e)
  {
    match e
    case Compare(_, op, _) => op.Neq?
    case Between(_, _, _, _) => false
    case InList(_, negated, _) => negated
    case Not(x) => !ScansNaN(x)
  }

  /** The tests that lose no NaN row to such a scan; `negated` says whether a NOT is pending above. */
  predicate KeepsNaN(e: Expr, negated: bool)
    requires FloatTest(e)
  {
    match e
    case Compare(_, op, _) => negated || !(op.Gt? || op.GtEq?)
    case Between(_, n, _, _) => negated || !n
    case InList(_, _, _) => true
    case Not(x) => KeepsNaN(x, !negated)
  }

  lemma {:induction false} NaNKeptExactly(e: Expr, negated: bool)
    requires FloatTest(e) && Arriving(e) == e
    ensures KeepsNaN(e, negated) <==> (Meets(e, NaN) != negated ==> ScansNaN(e) != negated)
  {
    match e
    case InList(_, _, list) =>
      ArrivingListIsFinite(list);
      NonFiniteEqualsNoFinite(NaN, list);
    case Not(x) => NaNKeptExactly(x, !negated);
    case _ =>
  }

  lemma {:induction false} NaNIsScanned(e: Expr, r: Row, columns: I.Resolver, cmp: I.Comparator)
    requires FloatTest(e) && Arriving(e) == e && I.ConvertExpr(e).Some? && I.Resolved(e, columns) && IeeeOrder(cmp)
    requires CellAt(r, TestColumn(e).index) == Val(FloatVal(NaN))
    ensures I.EvalFilter(I.ConvertExpr(e).value, r, columns, cmp) == Decided(ScansNaN(e))
  {
    match e
    case InList(c, _, list) =>
      var vals := I.ConvertedList(list).value;
      forall k | 0 <= k < |list| ensures !cmp(c.index, FloatVal(NaN), Eq, I.IcebergDenotes(vals[k])) {
        assert list[k] == ArrivingLiteral(list[k]);
        assert I.IcebergDenotes(vals[k]) == Floating(FloatOf(list[k]).value);
      }
    case Not(x) => NaNIsScanned(x, r, columns, cmp);
    case _ =>
  }

  lemma IeeeScanKeepsRow(e: Expr, types: seq<DataType>, r: Row, columns: I.Resolver, cmp: I.Comparator, engine: Engine)
    requires FloatTest(e) && Arriving(e) == e && FloatColumn(TestColumn(e).index, types) && KeepsNaN(e, false)
    requires I.ConvertExpr(e).Some? && I.Resolved(e, columns) && IeeeOrder(cmp)
    requires TypedRow(r, types) && AgreesOn(e, types, r, engine) && Eval(e, r, engine).True?
    ensures I.EvalFilter(I.ConvertExpr(e).value, r, columns, cmp).True?
  {
    var cell := CellAt(r, TestColumn(e).index);
    if cell == Val(FloatVal(NaN)) {
      EvalsAsFloat(e, types, r, engine);
      NaNKeptExactly(e, false);
      NaNIsScanned(e, r, columns, cmp);
    } else {
      if cell.Val? { assert cell.v == FloatVal(cell.v.f) && OrdersFloat(cmp, cell.v.f); }
      FloatOrderAgrees(e, types, r, engine, cmp);
      I.ConvertKeepsMeaning(e, r, columns, cmp, engine);
    }
  }

  lemma IeeeScanKeepsAnswer(rows: seq<Row>, e: EngineExpr, names: seq<string>, types: seq<DataType>, binds: I.Binds,
                            cmp: I.Comparator, engine: Engine, elsewhere: Elsewhere)
    requires FloatClause(e, names, types) && Arriving(TestOf(e, names)) == TestOf(e, names)
    requires EngineAgrees(engine, types) && IeeeOrder(cmp) && TypedTable(rows, types)
    requires KeepsNaN(TestOf(e, names), false) || !I.Kept(TestOf(e, names), binds)
    ensures ScanKept(rows, e, names, binds, cmp, engine, elsewhere)
  {
    var test := TestOf(e, names);
    RecognizedResolves(e, names);
    OneConjunct(test, binds);
    forall r | r in rows && Where([e], names, engine, elsewhere)(r)
      ensures IcebergScan(I.Conjunction([test], binds), names, cmp)(r)
    {
      ClauseIsTest(e, names, r, engine, elsewhere);
      AgreeingEngineAgreesOn(test, types, r, engine);
      if I.Kept(test, binds) { IeeeScanKeepsRow(test, types, r, FieldsByName(names), cmp, engine); }
    }
    WiderScanKeepsAnswer(rows, e, names, types, binds, cmp, engine, elsewhere);
  }

  /** That engine and scan agree is needed: with IEEE comparisons in the scan, a finite test loses its NaN row. */
  lemma IeeeScanKeepsAnswerIff(e: EngineExpr, names: seq<string>, types: seq<DataType>, binds: I.Binds,
                               cmp: I.Comparator, engine: Engine, elsewhere: Elsewhere)
    requires FloatClause(e, names, types) && Arriving(TestOf(e, names)) == TestOf(e, names)
    requires EngineAgrees(engine, types) && IeeeOrder(cmp)
    ensures KeepsNaN(TestOf(e, names), false) || !I.Kept(TestOf(e, names), binds) <==>
            forall rows | TypedTable(rows, types) :: ScanKept(rows, e, names, binds, cmp, engine, elsewhere)
  {
    var test := TestOf(e, names);
    if KeepsNaN(test, false) || !I.Kept(test, binds) {
      forall rows | TypedTable(rows, types) ensures ScanKept(rows, e, names, binds, cmp, engine, elsewhere) {
        IeeeScanKeepsAnswer(rows, e, names, types, binds, cmp, engine, elsewhere);
      }
    } else {
      RecognizedResolves(e, names);
      OneConjunct(test, binds);
      NaNKeptExactly(test, false);
      NaNIsScanned(test, FloatRow(TestColumn(test).index, NaN), FieldsByName(names), cmp);
      var rows := LostFloatChangesAnswer(e, names, types, NaN, binds, cmp, engine, elsewhere);
    }
  }
}
