/** `CanSkip` never rules out a matching row, and rules out all it can: its two-sided specification. */
module SkipSoundness {
  import opened Wrappers
  import opened Values
  import opened Predicates
  import opened Skip

  /** The engine orders a column's values against a literal as against the value the literal stands for. */
  ghost predicate EngineAgrees(engine: Engine, types: seq<DataType>) {
    forall c, x, l, v {:trigger engine.cmp(c, x, l), StandsFor(l, types[c], v)} | 0 <= c < |types|
      && StandsFor(l, types[c], v) && DomainOf(x) == DomainOf(v) :: InOrder(engine.cmp(c, x, l), x, v)
  }

  lemma EngineOrders(engine: Engine, types: seq<DataType>, c: int, x: StatValue, l: Literal)
    requires EngineAgrees(engine, types) && 0 <= c < |types| && LiteralValue(l, types[c]).Some?
    requires DomainOf(x) == DomainOf(LiteralValue(l, types[c]).value)
    ensures Sign(engine.cmp(c, x, l)) == Sign(TotalCmp(x, LiteralValue(l, types[c]).value))
  {
    LiteralValueExact(l, types[c]);
    TotalCmpIsOrder(x, LiteralValue(l, types[c]).value);
  }

  /** A row holds values of its columns' own domains. */
  ghost predicate TypedRow(row: Row, types: seq<DataType>) {
    forall c | 0 <= c < |types| && CellAt(row, c).Val? :: DomainOfType(types[c]) == Some(DomainOf(CellAt(row, c).v))
  }

  function CountNulls(rows: seq<Row>, c: int): nat {
    if rows == [] then 0 else (if CellAt(rows[0], c).Null? then 1 else 0) + CountNulls(rows[1..], c)
  }

  ghost predicate Within(x: StatValue, range: (StatValue, StatValue)) {
    && DomainOf(range.0) == DomainOf(x) == DomainOf(range.1)
    && TotalCmp(range.0, x) <= 0 && TotalCmp(x, range.1) <= 0
  }

  /** True statistics: the exact null count, and bounds (possibly loose) around every value that is not NaN. */
  ghost predicate FaithfulColumn(cs: ColStats, dt: DataType, c: int, rows: seq<Row>) {
    && cs.dtype == dt
    && (cs.nullCount.Some? ==> cs.nullCount.value == CountNulls(rows, c))
    && (cs.range.Some? ==>
          forall r | r in rows && CellAt(r, c).Val? && !IsNaN(CellAt(r, c).v) :: Within(CellAt(r, c).v, cs.range.value))
  }

  ghost predicate Faithful(st: GroupStats, types: seq<DataType>, rows: seq<Row>) {
    && st.numRows == |rows|
    && (forall r | r in rows :: TypedRow(r, types))
    && forall c | c in st.cols :: 0 <= c < |types| && FaithfulColumn(st.cols[c], types[c], c, rows)
  }

  lemma {:induction false} CountNullsExtremes(rows: seq<Row>, c: int, r: Row)
    requires r in rows
    ensures CountNulls(rows, c) <= |rows|
    ensures CountNulls(rows, c) == |rows| ==> CellAt(r, c).Null?
    ensures CountNulls(rows, c) == 0 ==> CellAt(r, c).Val?
  {
    if rows[0] != r {
      CountNullsExtremes(rows[1..], c, r);
    } else if r in rows[1..] {
      CountNullsExtremes(rows[1..], c, r);
    } else {
      CountNullsBound(rows[1..], c);
    }
  }

  lemma {:induction false} CountNullsBound(rows: seq<Row>, c: int)
    ensures CountNulls(rows, c) <= |rows|
  {
    if rows != [] {
      CountNullsBound(rows[1..], c);
    }
  }

  // ----- Negation -----

  lemma NegateIsNot3(e: Expr, row: Row, engine: Engine)
    ensures Eval(Negate(e), row, engine) == Not3(Eval(e, row, engine))
  {
  }

  // ----- Leaf rules -----

  /** A refuted comparison holds of no value inside the range, and an unrefuted one holds of some value inside it. */
  lemma RangeRefutesExactly(op: CompareOp, lit: StatValue, min: StatValue, max: StatValue)
    requires DomainOf(lit) == DomainOf(min) == DomainOf(max)
    requires !IsNaN(lit) && !IsNaN(min) && !IsNaN(max) && CmpVal(min, max) <= 0
    ensures RangeRefutes(op, lit, min, max) <==>
            forall x | DomainOf(x) == DomainOf(lit) && Within(x, (min, max)) :: !Holds(op, TotalCmp(x, lit))
  {
    TotalCmpFlips(lit, min);
    TotalCmpFlips(lit, max);
    TotalCmpFlips(min, max);
    TotalCmpFlips(lit, lit);
    TotalCmpFlips(min, min);
    TotalCmpFlips(max, max);
    if RangeRefutes(op, lit, min, max) {
      forall x | DomainOf(x) == DomainOf(lit) && Within(x, (min, max)) ensures !Holds(op, TotalCmp(x, lit)) {
        RefutedOutside(op, lit, min, max, x);
      }
    } else if op.Eq? {
      assert Within(lit, (min, max));
    } else {
      assert Within(min, (min, max)) && Within(max, (min, max));
      if op.Neq? && TotalCmp(min, lit) == 0 && TotalCmp(max, lit) == 0 {
        TotalCmpTransitive(max, lit, min);
      }
    }
  }

  lemma RefutedOutside(op: CompareOp, lit: StatValue, min: StatValue, max: StatValue, x: StatValue)
    requires DomainOf(lit) == DomainOf(min) == DomainOf(max) == DomainOf(x)
    requires !IsNaN(lit) && !IsNaN(min) && !IsNaN(max)
    requires RangeRefutes(op, lit, min, max) && Within(x, (min, max))
    ensures !Holds(op, TotalCmp(x, lit))
  {
    TotalCmpFlips(lit, min);
    TotalCmpFlips(lit, max);
    TotalCmpFlips(min, max);
    TotalCmpFlips(x, lit);
    TotalCmpFlips(x, min);
    TotalCmpFlips(x, max);
    if TotalCmp(x, lit) <= 0 {
      TotalCmpTransitive(min, x, lit);
      if TotalCmp(lit, min) <= 0 { TotalCmpTransitive(lit, min, x); }
    }
    if TotalCmp(x, lit) >= 0 {
      TotalCmpTransitive(lit, x, max);
      if TotalCmp(max, lit) <= 0 { TotalCmpTransitive(x, max, lit); }
    }
    if op.Neq? {
      TotalCmpTransitive(x, max, min);
      TotalCmpTransitive(x, min, lit);
      TotalCmpTransitive(lit, min, x);
    }
  }

  // ----- What soundness rests on, row by row -----

  /** What the statistics say of one cell. */
  ghost predicate FitsCell(cs: ColStats, numRows: int, dt: DataType, cell: Cell) {
    && cs.dtype == dt
    && (cs.nullCount == Some(numRows) ==> cell.Null?) && (cs.nullCount == Some(0) ==> cell.Val?)
    && (cs.range.Some? && cell.Val? && !IsNaN(cell.v) ==> Within(cell.v, cs.range.value))
  }

  ghost predicate Fits(st: GroupStats, types: seq<DataType>, r: Row) {
    && TypedRow(r, types)
    && forall c | c in st.cols :: 0 <= c < |types| && FitsCell(st.cols[c], st.numRows, types[c], CellAt(r, c))
  }

  lemma FaithfulFits(st: GroupStats, types: seq<DataType>, rows: seq<Row>, r: Row)
    requires Faithful(st, types, rows) && r in rows
    ensures Fits(st, types, r)
  {
    forall c | c in st.cols ensures FitsCell(st.cols[c], st.numRows, types[c], CellAt(r, c)) {
      CountNullsExtremes(rows, c, r);
    }
  }

  /** The engine orders this row's value against this literal as against the value the literal stands for. */
  ghost predicate Agrees(c: int, l: Literal, types: seq<DataType>, r: Row, engine: Engine) {
    0 <= c < |types| && CellAt(r, c).Val? ==>
      forall v {:trigger StandsFor(l, types[c], v)} | StandsFor(l, types[c], v)
        && DomainOf(v) == DomainOf(CellAt(r, c).v) ::
        InOrder(engine.cmp(c, CellAt(r, c).v, l), CellAt(r, c).v, v)
  }

  /** In the evaluator's terms. */
  lemma AgreesInValues(c: int, l: Literal, types: seq<DataType>, r: Row, engine: Engine)
    requires 0 <= c < |types| && CellAt(r, c).Val? && LiteralValue(l, types[c]).Some?
    requires DomainOf(CellAt(r, c).v) == DomainOf(LiteralValue(l, types[c]).value)
    ensures Agrees(c, l, types, r, engine) <==>
            Sign(engine.cmp(c, CellAt(r, c).v, l)) == Sign(TotalCmp(CellAt(r, c).v, LiteralValue(l, types[c]).value))
  {
    LiteralValueExact(l, types[c]);
    TotalCmpIsOrder(CellAt(r, c).v, LiteralValue(l, types[c]).value);
  }

  /** It does so for every literal of the predicate. */
  ghost predicate AgreesOn(e: Expr, types: seq<DataType>, r: Row, engine: Engine) {
    match e
    case Compare(c, _, l) => Agrees(c.index, l, types, r, engine)
    case IsNull(_, _) => true
    case Between(c, _, low, high) => Agrees(c.index, low, types, r, engine) && Agrees(c.index, high, types, r, engine)
    case InList(c, _, list) => forall k | 0 <= k < |list| :: Agrees(c.index, list[k], types, r, engine)
    case And(a, b) => AgreesOn(a, types, r, engine) && AgreesOn(b, types, r, engine)
    case Or(a, b) => AgreesOn(a, types, r, engine) && AgreesOn(b, types, r, engine)
    case Not(x) => AgreesOn(x, types, r, engine)
  }

  /** An engine that orders every domain so does so on every row. */
  lemma {:induction false} AgreeingEngineAgreesOn(e: Expr, types: seq<DataType>, r: Row, engine: Engine)
    requires EngineAgrees(engine, types)
    ensures AgreesOn(e, types, r, engine)
  {
    match e
    case And(a, b) =>
      AgreeingEngineAgreesOn(a, types, r, engine);
      AgreeingEngineAgreesOn(b, types, r, engine);
    case Or(a, b) =>
      AgreeingEngineAgreesOn(a, types, r, engine);
      AgreeingEngineAgreesOn(b, types, r, engine);
    case Not(x) => AgreeingEngineAgreesOn(x, types, r, engine);
    case _ =>
  }

  /** What the bloom filter calls absent is not this row's value. */
  ghost predicate Truthful(c: int, l: Literal, bloom: Option<Prober>, r: Row, engine: Engine) {
    bloom.Some? && bloom.value(c, l) && CellAt(r, c).Val? ==> engine.cmp(c, CellAt(r, c).v, l) != 0
  }

  ghost predicate TruthfulOn(e: Expr, bloom: Option<Prober>, r: Row, engine: Engine) {
    match e
    case Compare(c, _, l) => Truthful(c.index, l, bloom, r, engine)
    case IsNull(_, _) => true
    case Between(_, _, _, _) => true
    case InList(c, _, list) => forall k | 0 <= k < |list| :: Truthful(c.index, list[k], bloom, r, engine)
    case And(a, b) => TruthfulOn(a, bloom, r, engine) && TruthfulOn(b, bloom, r, engine)
    case Or(a, b) => TruthfulOn(a, bloom, r, engine) && TruthfulOn(b, bloom, r, engine)
    case Not(x) => TruthfulOn(x, bloom, r, engine)
  }

  /** The row's value of column c is a NaN, and there are bounds, which a writer computes without it. */
  predicate Exposed(st: GroupStats, r: Row, c: int) {
    CellAt(r, c).Val? && IsNaN(CellAt(r, c).v) && c in st.cols && UsableRange(st.cols[c])
  }

  /** Comparisons that NaN, the greatest float, fails with every other literal. */
  predicate RejectsNaN(op: CompareOp) {
    op.Eq? || op.Lt? || op.LtEq?
  }

  /** Every leaf on an exposed column fails on NaN; `negated` says whether a NOT is pending above. */
  predicate NaNsHarmless(e: Expr, negated: bool, exposed: int -> bool) {
    match e
    case Compare(c, op, _) => exposed(c.index) ==> RejectsNaN(if negated then NegateOp(op) else op)
    case IsNull(_, _) => true
    case Between(c, n, _, _) => exposed(c.index) ==> n == negated
    case InList(c, n, _) => exposed(c.index) ==> n == negated
    case And(a, b) => NaNsHarmless(a, negated, exposed) && NaNsHarmless(b, negated, exposed)
    case Or(a, b) => NaNsHarmless(a, negated, exposed) && NaNsHarmless(b, negated, exposed)
    case Not(x) => NaNsHarmless(x, !negated, exposed)
  }

  lemma {:induction false} LessExposedIsHarmless(e: Expr, negated: bool, exposed: int -> bool, more: int -> bool)
    requires NaNsHarmless(e, negated, more) && forall c | exposed(c) :: more(c)
    ensures NaNsHarmless(e, negated, exposed)
  {
    match e
    case And(a, b) =>
      LessExposedIsHarmless(a, negated, exposed, more);
      LessExposedIsHarmless(b, negated, exposed, more);
    case Or(a, b) =>
      LessExposedIsHarmless(a, negated, exposed, more);
      LessExposedIsHarmless(b, negated, exposed, more);
    case Not(x) => LessExposedIsHarmless(x, !negated, exposed, more);
    case _ =>
  }

  // ----- Soundness -----

  lemma SkippedCompareFails(c: int, op: CompareOp, l: Literal, st: GroupStats, bloom: Option<Prober>,
                            types: seq<DataType>, r: Row, engine: Engine)
    requires Fits(st, types, r) && Agrees(c, l, types, r, engine) && Truthful(c, l, bloom, r, engine)
    requires Exposed(st, r, c) ==> RejectsNaN(op)
    requires CanSkipCompare(c, op, l, st, bloom)
    ensures !EvalCompare(c, CellAt(r, c), op, l, engine).True?
  {
    var cs := st.cols[c];
    if CellAt(r, c).Val? && UsableRange(cs) && UsableLiteral(l, cs.dtype).Some? {
      var x, lit := CellAt(r, c).v, UsableLiteral(l, cs.dtype).value;
      var (min, max) := cs.range.value;
      AgreesInValues(c, l, types, r, engine);
      if RangeRefutes(op, lit, min, max) && !IsNaN(x) {
        RefutedOutside(op, lit, min, max, x);
      }
    }
  }

  /** On a value BETWEEN is what the two comparisons say. */
  lemma BetweenInValues(c: int, negated: bool, low: Literal, high: Literal, dt: DataType, types: seq<DataType>, r: Row,
                        engine: Engine)
    requires Agrees(c, low, types, r, engine) && Agrees(c, high, types, r, engine)
    requires 0 <= c < |types| && types[c] == dt && CellAt(r, c).Val?
    requires LiteralValue(low, dt).Some? && LiteralValue(high, dt).Some?
    requires DomainOf(LiteralValue(low, dt).value) == DomainOf(CellAt(r, c).v) == DomainOf(LiteralValue(high, dt).value)
    ensures var x, lo, hi := CellAt(r, c).v, LiteralValue(low, dt).value, LiteralValue(high, dt).value;
            Eval(Between(Column("", c), negated, low, high), r, engine).True? <==>
            (TotalCmp(x, lo) >= 0 && TotalCmp(x, hi) <= 0) != negated
  {
    AgreesInValues(c, low, types, r, engine);
    AgreesInValues(c, high, types, r, engine);
  }

  lemma InvertedHoldsNothing(lo: StatValue, hi: StatValue, x: StatValue)
    requires DomainOf(lo) == DomainOf(hi) == DomainOf(x) && TotalCmp(lo, hi) > 0
    ensures !(TotalCmp(x, lo) >= 0 && TotalCmp(x, hi) <= 0)
  {
    TotalCmpFlips(lo, x);
    if TotalCmp(lo, x) <= 0 && TotalCmp(x, hi) <= 0 { TotalCmpTransitive(lo, x, hi); }
  }

  lemma SkippedBetweenFails(c: int, negated: bool, low: Literal, high: Literal, st: GroupStats,
                            types: seq<DataType>, r: Row, engine: Engine)
    requires Fits(st, types, r) && Agrees(c, low, types, r, engine) && Agrees(c, high, types, r, engine)
    requires Exposed(st, r, c) ==> !negated
    requires CanSkipBetween(c, negated, low, high, st)
    ensures !Eval(Between(Column("", c), negated, low, high), r, engine).True?
  {
    var cs := st.cols[c];
    if CellAt(r, c).Val? {
      var x, lo, hi := CellAt(r, c).v, UsableLiteral(low, cs.dtype).value, UsableLiteral(high, cs.dtype).value;
      LiteralValueExact(low, cs.dtype);
      LiteralValueExact(high, cs.dtype);
      BetweenInValues(c, negated, low, high, cs.dtype, types, r, engine);
      if IsNaN(x) {
        assert TotalCmp(x, hi) > 0;
      } else if !negated && CmpVal(lo, hi) > 0 {
        InvertedHoldsNothing(lo, hi, x);
      } else {
        RefutedBetween(negated, lo, hi, cs.range.value.0, cs.range.value.1, x);
      }
    }
  }

  lemma ElementIsOnlyValue(v: StatValue, min: StatValue, max: StatValue, x: StatValue)
    requires DomainOf(v) == DomainOf(min) == DomainOf(max) == DomainOf(x)
    requires TotalCmp(min, max) == 0 && TotalCmp(v, min) == 0 && TotalCmp(min, x) <= 0 && TotalCmp(x, max) <= 0
    ensures TotalCmp(x, v) == 0
  {
    TotalCmpFlips(min, max);
    TotalCmpFlips(v, min);
    TotalCmpFlips(x, v);
    TotalCmpTransitive(x, max, min);
    TotalCmpTransitive(x, min, v);
    TotalCmpTransitive(v, min, x);
  }

  lemma SkippedInListFails(c: int, negated: bool, list: seq<Literal>, st: GroupStats, bloom: Option<Prober>,
                           types: seq<DataType>, r: Row, engine: Engine)
    requires Fits(st, types, r) && forall k | 0 <= k < |list| :: Agrees(c, list[k], types, r, engine)
    requires forall k | 0 <= k < |list| :: Truthful(c, list[k], bloom, r, engine)
    requires Exposed(st, r, c) ==> !negated
    requires CanSkipInList(c, negated, list, st, bloom)
    requires list != [] || engine.nullInEmpty.Unknown?
    ensures !NegateIf(negated, EvalIn(c, CellAt(r, c), list, engine)).True?
  {
    var cs := st.cols[c];
    if CellAt(r, c).Val? {
      var x := CellAt(r, c).v;
      if negated {
        var k :| 0 <= k < |list| && IsElement(list[k], cs);
        var v := UsableLiteral(list[k], cs.dtype).value;
        LiteralValueExact(list[k], cs.dtype);
        ElementIsOnlyValue(v, cs.range.value.0, cs.range.value.1, x);
        AgreesInValues(c, list[k], types, r, engine);
      } else {
        forall k | 0 <= k < |list| ensures engine.cmp(c, x, list[k]) != 0 {
          assert InElementAbsent(c, list[k], cs, bloom);
          SkippedCompareFails(c, Eq, list[k], st, bloom, types, r, engine);
        }
      }
    }
  }

  /** A row that fits the statistics does not match a predicate they let the evaluator skip. */
  lemma {:induction false} SkipMissesRow(e: Expr, st: GroupStats, bloom: Option<Prober>, types: seq<DataType>, r: Row,
                                         engine: Engine)
    requires Fits(st, types, r) && AgreesOn(e, types, r, engine) && TruthfulOn(e, bloom, r, engine)
    requires NaNsHarmless(e, false, (c: int) => Exposed(st, r, c))
    requires NoEmptyLists(e) || engine.nullInEmpty.Unknown?
    requires CanSkip(e, st, bloom)
    ensures !Eval(e, r, engine).True?
    decreases Weight(e)
  {
    match e
    case And(a, b) =>
      if CanSkip(a, st, bloom) {
        SkipMissesRow(a, st, bloom, types, r, engine);
      } else {
        SkipMissesRow(b, st, bloom, types, r, engine);
      }
    case Or(a, b) =>
      SkipMissesRow(a, st, bloom, types, r, engine);
      SkipMissesRow(b, st, bloom, types, r, engine);
    case Not(x) =>
      NegateDescends(x);
      SkipMissesRow(Negate(x), st, bloom, types, r, engine);
      NegateIsNot3(x, r, engine);
    case Compare(c, op, l) => SkippedCompareFails(c.index, op, l, st, bloom, types, r, engine);
    case IsNull(c, negated) =>
    case Between(c, negated, low, high) => SkippedBetweenFails(c.index, negated, low, high, st, types, r, engine);
    case InList(c, negated, list) => SkippedInListFails(c.index, negated, list, st, bloom, types, r, engine);
  }

  /**
   * A skipped row group holds no matching row, whatever the predicate, the statistics, the bloom filter and the rows.
   * The provisos concern the row and the predicate's own literals: the engine orders the two as the domain does, bounds
   * that leave out a NaN meet only leaves that fail on NaN, and either no list is empty or NULL IN () is unknown.
   */
  lemma CanSkipIsSound(e: Expr, st: GroupStats, bloom: Option<Prober>, types: seq<DataType>, rows: seq<Row>, r: Row,
                       engine: Engine)
    requires Faithful(st, types, rows) && r in rows
    requires AgreesOn(e, types, r, engine) && TruthfulOn(e, bloom, r, engine)
    requires NaNsHarmless(e, false, (c: int) => Exposed(st, r, c))
    requires NoEmptyLists(e) || engine.nullInEmpty.Unknown?
    requires CanSkip(e, st, bloom)
    ensures !Eval(e, r, engine).True?
  {
    FaithfulFits(st, types, rows, r);
    SkipMissesRow(e, st, bloom, types, r, engine);
  }

  // ----- The provisos are needed -----

  /** On every all-null column the all-null rule is sound for IN () and NOT IN () exactly when NULL IN () is unknown. */
  lemma EmptyListProvisoIsExact(c: Column, st: GroupStats, types: seq<DataType>, rows: seq<Row>, r: Row, engine: Engine)
    requires Faithful(st, types, rows) && r in rows
    requires c.index in st.cols && ProvablyAllNull(st.cols[c.index], st.numRows)
    ensures forall negated :: CanSkip(InList(c, negated, []), st, None)
    ensures engine.nullInEmpty.Unknown? <==> forall negated :: !Eval(InList(c, negated, []), r, engine).True?
  {
    CountNullsExtremes(rows, c.index, r);
    assert !Eval(InList(c, false, []), r, engine).True? <==> !engine.nullInEmpty.True?;
    assert !Eval(InList(c, true, []), r, engine).True? <==> !engine.nullInEmpty.False?;
  }

  /** A comparison on a float column, one row with a NaN, and statistics that fit it but for the NaN. */
  ghost predicate SkipsNaN(st: GroupStats, op: CompareOp, l: Literal) {
    Fits(st, [Float64Type], [Val(FloatVal(NaN))]) && CanSkip(Compare(Column("a", 0), op, l), st, None)
  }

  /** A range and a literal with which the operator's rule skips a row group that NaN would match. */
  function NaNTrap(op: CompareOp): (StatValue, StatValue) {
    if op.Neq? then (FloatVal(Fin(5.0)), FloatVal(Fin(5.0))) else (FloatVal(Fin(1.0)), FloatVal(Fin(3.0)))
  }

  /** Bounds that leave out a NaN are safe exactly for =, < and <=; >, >= and <> lose the row. */
  lemma NaNRowsNeedProviso(op: CompareOp, engine: Engine)
    requires EngineAgrees(engine, [Float64Type])
    ensures RejectsNaN(op) <==>
            forall st: GroupStats, l: Literal | SkipsNaN(st, op, l) ::
              !Eval(Compare(Column("a", 0), op, l), [Val(FloatVal(NaN))], engine).True?
  {
    var row: Row := [Val(FloatVal(NaN))];
    if RejectsNaN(op) {
      forall st: GroupStats, l: Literal | SkipsNaN(st, op, l)
        ensures !Eval(Compare(Column("a", 0), op, l), row, engine).True?
      {
        AgreeingEngineAgreesOn(Compare(Column("a", 0), op, l), [Float64Type], row, engine);
        SkippedCompareFails(0, op, l, st, None, [Float64Type], row, engine);
      }
    } else {
      var st: GroupStats := RowGroupStats(1, map[0 := ColStats(Float64Type, Some(NaNTrap(op)), None)]);
      var l := LitFloat64(Fin(5.0));
      assert LiteralValue(l, [Float64Type][0]) == Some(FloatVal(Fin(5.0)));
      assert SkipsNaN(st, op, l);
      EngineOrders(engine, [Float64Type], 0, FloatVal(NaN), l);
      assert Eval(Compare(Column("a", 0), op, l), row, engine).True?;
    }
  }

  /** An engine that orders the two zeros keeps 0.0 > -0.0; `cmpVal` calls them equal and the evaluator skips. */
  lemma OrderedZerosNeedProviso(engine: Engine)
    requires engine.cmp(0, FloatVal(Fin(0.0)), LitFloat64(NegZero)) > 0
    ensures var range := (FloatVal(Fin(0.0)), FloatVal(Fin(0.0)));
            var st: GroupStats := RowGroupStats(1, map[0 := ColStats(Float64Type, Some(range), None)]);
            var e: Expr := Compare(Column("a", 0), Gt, LitFloat64(NegZero));
            CanSkip(e, st, None) && Eval(e, [Val(FloatVal(Fin(0.0)))], engine).True?
            && !AgreesOn(e, [Float64Type], [Val(FloatVal(Fin(0.0)))], engine)
  {
    var x, l := FloatVal(Fin(0.0)), LitFloat64(NegZero);
    assert TotalCmp(x, LiteralValue(l, Float64Type).value) == 0;
    AgreesInValues(0, l, [Float64Type], [Val(x)], engine);
  }

  // ----- The rules, without the evaluator's comparisons -----

  /** No value within the bounds passes; nothing is known without bounds. */
  ghost predicate NothingWithin(range: Option<(StatValue, StatValue)>, passes: StatValue -> bool) {
    range.Some? && !IsNaN(range.value.0) && !IsNaN(range.value.1) && forall x | Within(x, range.value) :: !passes(x)
  }

  /** Bounds as the adapter leaves them: in order. */
  predicate Ordered(cs: ColStats)
    requires WellTyped(cs)
  {
    UsableRange(cs) ==> CmpVal(cs.range.value.0, cs.range.value.1) <= 0
  }

  /** x compares with v as the operator says, in the order of their domain. */
  ghost predicate Relates(op: CompareOp, x: StatValue, v: StatValue) {
    DomainOf(x) == DomainOf(v) &&
    match op
    case Eq => !Below(x, v) && !Below(v, x)
    case Neq => Below(x, v) || Below(v, x)
    case Lt => Below(x, v)
    case LtEq => !Below(v, x)
    case Gt => Below(v, x)
    case GtEq => !Below(x, v)
  }

  lemma RelatesIsHolds(op: CompareOp, x: StatValue, v: StatValue)
    requires DomainOf(x) == DomainOf(v)
    ensures Relates(op, x, v) <==> Holds(op, TotalCmp(x, v))
  {
    TotalCmpIsOrder(x, v);
  }

  /** The literal stands for a value of the column that is not NaN. */
  ghost predicate StandsForUsable(l: Literal, dt: DataType, v: StatValue) {
    StandsFor(l, dt, v) && !IsNaN(v)
  }

  lemma RangeRuleExact(op: CompareOp, l: Literal, cs: ColStats)
    requires WellTyped(cs) && Ordered(cs)
    ensures (UsableRange(cs) && UsableLiteral(l, cs.dtype).Some?
             && RangeRefutes(op, UsableLiteral(l, cs.dtype).value, cs.range.value.0, cs.range.value.1)) <==>
            exists v :: StandsForUsable(l, cs.dtype, v) && NothingWithin(cs.range, (x: StatValue) => Relates(op, x, v))
  {
    LiteralValueExact(l, cs.dtype);
    if UsableRange(cs) && UsableLiteral(l, cs.dtype).Some? {
      var lit := UsableLiteral(l, cs.dtype).value;
      RangeRefutesExactly(op, lit, cs.range.value.0, cs.range.value.1);
      forall x | Within(x, cs.range.value) ensures Relates(op, x, lit) <==> Holds(op, TotalCmp(x, lit)) {
        RelatesIsHolds(op, x, lit);
      }
      assert StandsForUsable(l, cs.dtype, lit);
    }
  }

  /** The bounds show that no value compares with what the literal stands for. */
  ghost predicate RuledOutByRange(op: CompareOp, l: Literal, cs: ColStats) {
    exists v :: StandsForUsable(l, cs.dtype, v) && NothingWithin(cs.range, (x: StatValue) => Relates(op, x, v))
  }

  predicate Denied(c: int, l: Literal, bloom: Option<Prober>) {
    bloom.Some? && bloom.value(c, l)
  }

  ghost predicate Inside(x: StatValue, lo: StatValue, hi: StatValue) {
    Relates(GtEq, x, lo) && Relates(LtEq, x, hi)
  }

  /** An interval turned round is empty; otherwise the bounds show that no value is inside, or, negated, outside. */
  ghost predicate EmptyBetween(negated: bool, lo: StatValue, hi: StatValue, range: Option<(StatValue, StatValue)>) {
    || (!negated && Relates(Lt, hi, lo))
    || NothingWithin(range, (x: StatValue) => Inside(x, lo, hi) != negated)
  }

  ghost predicate BetweenRuledOut(negated: bool, low: Literal, high: Literal, cs: ColStats) {
    exists lo, hi :: StandsForUsable(low, cs.dtype, lo) && StandsForUsable(high, cs.dtype, hi)
                     && EmptyBetween(negated, lo, hi, cs.range)
  }

  /** What the statistics of its column and the bloom filter say against a leaf. */
  ghost predicate Excluded(e: Expr, st: GroupStats, bloom: Option<Prober>)
    requires !e.And? && !e.Or? && !e.Not?
  {
    var c := e.column.index;
    c in st.cols &&
    var cs := st.cols[c];
    var allNull := cs.nullCount == Some(st.numRows);
    match e
    case Compare(_, op, l) => allNull || RuledOutByRange(op, l, cs) || (op == Eq && Denied(c, l, bloom))
    case IsNull(_, negated) => if negated then allNull else cs.nullCount == Some(0)
    case Between(_, negated, low, high) => allNull || BetweenRuledOut(negated, low, high, cs)
    case InList(_, negated, list) =>
      || allNull
      || if negated then exists k :: 0 <= k < |list| && RuledOutByRange(Neq, list[k], cs)
         else forall k | 0 <= k < |list| :: RuledOutByRange(Eq, list[k], cs) || Denied(c, list[k], bloom)
  }

  predicate RefutesBetween(negated: bool, lo: StatValue, hi: StatValue, min: StatValue, max: StatValue)
    requires DomainOf(lo) == DomainOf(hi) == DomainOf(min) == DomainOf(max)
  {
    if negated then CmpVal(min, lo) >= 0 && CmpVal(max, hi) <= 0
    else CmpVal(lo, hi) > 0 || CmpVal(hi, min) < 0 || CmpVal(lo, max) > 0
  }

  lemma RefutedBetween(negated: bool, lo: StatValue, hi: StatValue, min: StatValue, max: StatValue, x: StatValue)
    requires DomainOf(lo) == DomainOf(hi) == DomainOf(min) == DomainOf(max) == DomainOf(x)
    requires !IsNaN(lo) && !IsNaN(hi) && !IsNaN(min) && !IsNaN(max) && Within(x, (min, max))
    requires RefutesBetween(negated, lo, hi, min, max)
    ensures (TotalCmp(x, lo) >= 0 && TotalCmp(x, hi) <= 0) == negated
  {
    TotalCmpFlips(lo, x);
    TotalCmpFlips(hi, x);
    TotalCmpFlips(min, lo);
    TotalCmpFlips(hi, min);
    if negated {
      TotalCmpTransitive(lo, min, x);
      TotalCmpTransitive(x, max, hi);
    } else {
      if TotalCmp(lo, x) <= 0 && TotalCmp(x, hi) <= 0 { TotalCmpTransitive(lo, x, hi); }
      if TotalCmp(x, hi) <= 0 { TotalCmpTransitive(min, x, hi); }
      if TotalCmp(lo, x) <= 0 { TotalCmpTransitive(lo, x, max); }
    }
  }

  /** Where the rule does not apply, a value within the bounds passes. */
  lemma UnrefutedBetween(negated: bool, lo: StatValue, hi: StatValue, min: StatValue, max: StatValue)
      returns (x: StatValue)
    requires DomainOf(lo) == DomainOf(hi) == DomainOf(min) == DomainOf(max)
    requires !IsNaN(lo) && !IsNaN(hi) && !IsNaN(min) && !IsNaN(max) && CmpVal(min, max) <= 0
    requires !RefutesBetween(negated, lo, hi, min, max)
    ensures Within(x, (min, max)) && (TotalCmp(x, lo) >= 0 && TotalCmp(x, hi) <= 0) != negated
  {
    TotalCmpFlips(min, max);
    TotalCmpFlips(min, lo);
    TotalCmpFlips(hi, min);
    TotalCmpFlips(lo, lo);
    TotalCmpFlips(max, max);
    x := if !negated then (if TotalCmp(min, lo) >= 0 then min else lo) else if TotalCmp(min, lo) < 0 then min else max;
  }

  lemma BetweenRuleExact(negated: bool, low: Literal, high: Literal, cs: ColStats, lo: StatValue, hi: StatValue)
    requires WellTyped(cs) && Ordered(cs) && LiteralValue(low, cs.dtype) == Some(lo)
    requires LiteralValue(high, cs.dtype) == Some(hi) && !IsNaN(lo) && !IsNaN(hi)
    requires DomainOfType(cs.dtype) == Some(DomainOf(lo)) == Some(DomainOf(hi))
    ensures ((!negated && CmpVal(lo, hi) > 0)
             || (UsableRange(cs) && RefutesBetween(negated, lo, hi, cs.range.value.0, cs.range.value.1))) <==>
            EmptyBetween(negated, lo, hi, cs.range)
  {
    TotalCmpIsOrder(lo, hi);
    if UsableRange(cs) {
      var (min, max) := cs.range.value;
      forall x | Within(x, (min, max))
        ensures Inside(x, lo, hi) <==> TotalCmp(x, lo) >= 0 && TotalCmp(x, hi) <= 0
        ensures RefutesBetween(negated, lo, hi, min, max) ==>
                  (TotalCmp(x, lo) >= 0 && TotalCmp(x, hi) <= 0) == negated
      {
        RelatesIsHolds(GtEq, x, lo);
        RelatesIsHolds(LtEq, x, hi);
        if RefutesBetween(negated, lo, hi, min, max) {
          RefutedBetween(negated, lo, hi, min, max, x);
        }
      }
      if !RefutesBetween(negated, lo, hi, min, max) {
        var x := UnrefutedBetween(negated, lo, hi, min, max);
      }
    }
  }

  lemma BetweenExcludedExactly(c: Column, negated: bool, low: Literal, high: Literal, st: GroupStats,
                               bloom: Option<Prober>)
    requires c.index in st.cols ==> Ordered(st.cols[c.index])
    ensures CanSkip(Between(c, negated, low, high), st, bloom) <==> Excluded(Between(c, negated, low, high), st, bloom)
  {
    if c.index in st.cols {
      var cs := st.cols[c.index];
      LiteralValueExact(low, cs.dtype);
      LiteralValueExact(high, cs.dtype);
      var lo, hi := UsableLiteral(low, cs.dtype), UsableLiteral(high, cs.dtype);
      if lo.Some? && hi.Some? {
        BetweenRuleExact(negated, low, high, cs, lo.value, hi.value);
        assert StandsForUsable(low, cs.dtype, lo.value) && StandsForUsable(high, cs.dtype, hi.value);
      }
    }
  }

  /** Every leaf is skipped exactly when its column's statistics or the bloom filter exclude it. */
  lemma LeafRulesExact(e: Expr, st: GroupStats, bloom: Option<Prober>)
    requires !e.And? && !e.Or? && !e.Not? && (e.column.index in st.cols ==> Ordered(st.cols[e.column.index]))
    ensures CanSkip(e, st, bloom) <==> Excluded(e, st, bloom)
  {
    if e.column.index in st.cols {
      var c, cs := e.column.index, st.cols[e.column.index];
      match e
      case Compare(_, op, l) => RangeRuleExact(op, l, cs);
      case IsNull(_, _) =>
      case Between(_, negated, low, high) => BetweenExcludedExactly(e.column, negated, low, high, st, bloom);
      case InList(_, negated, list) =>
        forall k | 0 <= k < |list|
          ensures InElementAbsent(c, list[k], cs, bloom) <==>
                  RuledOutByRange(Eq, list[k], cs) || Denied(c, list[k], bloom)
          ensures UsableRange(cs) ==>
                    (CmpVal(cs.range.value.0, cs.range.value.1) == 0 && IsElement(list[k], cs) <==>
                     RuledOutByRange(Neq, list[k], cs))
        {
          RangeRuleExact(Eq, list[k], cs);
          RangeRuleExact(Neq, list[k], cs);
          ElementIsBound(list[k], cs);
        }
    }
  }

  lemma ElementIsBound(l: Literal, cs: ColStats)
    requires WellTyped(cs)
    ensures UsableRange(cs) && UsableLiteral(l, cs.dtype).Some? ==>
              var v := UsableLiteral(l, cs.dtype).value; CmpVal(v, cs.range.value.0) == -CmpVal(cs.range.value.0, v)
  {
    if UsableRange(cs) && UsableLiteral(l, cs.dtype).Some? {
      TotalCmpFlips(UsableLiteral(l, cs.dtype).value, cs.range.value.0);
    }
  }

  // ----- Precision: the evaluator skips all it can -----

  /** A comparison, BETWEEN or IN whose literals and statistics can all be used. */
  ghost predicate Decidable(e: Expr, st: GroupStats) {
    && (e.Compare? || e.Between? || (e.InList? && !e.negated))
    && e.column.index in st.cols
    && var cs := st.cols[e.column.index];
       && !ProvablyAllNull(cs, st.numRows)
       && UsableRange(cs) && CmpVal(cs.range.value.0, cs.range.value.1) <= 0
       && match e
          case Compare(_, _, l) => UsableLiteral(l, cs.dtype).Some?
          case Between(_, _, low, high) => UsableLiteral(low, cs.dtype).Some? && UsableLiteral(high, cs.dtype).Some?
          case InList(_, _, list) => forall k | 0 <= k < |list| :: UsableLiteral(list[k], cs.dtype).Some?
          case _ => true
  }

  /** The row's value of column c is one the statistics allow. */
  ghost predicate Allowed(row: Row, c: int, st: GroupStats)
    requires c in st.cols && st.cols[c].range.Some?
  {
    CellAt(row, c).Val? && Within(CellAt(row, c).v, st.cols[c].range.value)
  }

  function RowWith(c: nat, x: StatValue): Row {
    seq(c + 1, i => Val(x))
  }

  lemma CompareDecides(c: Column, op: CompareOp, l: Literal, st: GroupStats, types: seq<DataType>, engine: Engine)
    requires EngineAgrees(engine, types) && Decidable(Compare(c, op, l), st)
    requires 0 <= c.index < |types| && types[c.index] == st.cols[c.index].dtype
    ensures CanSkip(Compare(c, op, l), st, None) <==>
            forall row | Allowed(row, c.index, st) :: !Eval(Compare(c, op, l), row, engine).True?
  {
    var e, cs := Compare(c, op, l), st.cols[c.index];
    var lit := UsableLiteral(l, cs.dtype).value;
    var (min, max) := cs.range.value;
    RangeRefutesExactly(op, lit, min, max);
    forall row | Allowed(row, c.index, st)
      ensures Eval(e, row, engine).True? <==> Holds(op, TotalCmp(CellAt(row, c.index).v, lit))
    {
      EngineOrders(engine, types, c.index, CellAt(row, c.index).v, l);
    }
    if !CanSkip(e, st, None) {
      var x :| DomainOf(x) == DomainOf(lit) && Within(x, (min, max)) && Holds(op, TotalCmp(x, lit));
      assert Allowed(RowWith(c.index, x), c.index, st);
      assert Eval(e, RowWith(c.index, x), engine).True?;
    } else {
      forall row | Allowed(row, c.index, st) ensures !Eval(e, row, engine).True? {
        assert !Holds(op, TotalCmp(CellAt(row, c.index).v, lit));
      }
    }
  }

  lemma BetweenDecides(c: Column, negated: bool, low: Literal, high: Literal, st: GroupStats, types: seq<DataType>,
                       engine: Engine)
    requires EngineAgrees(engine, types) && Decidable(Between(c, negated, low, high), st)
    requires 0 <= c.index < |types| && types[c.index] == st.cols[c.index].dtype
    ensures CanSkip(Between(c, negated, low, high), st, None) <==>
            forall row | Allowed(row, c.index, st) :: !Eval(Between(c, negated, low, high), row, engine).True?
  {
    var e, cs := Between(c, negated, low, high), st.cols[c.index];
    var lo, hi := UsableLiteral(low, cs.dtype).value, UsableLiteral(high, cs.dtype).value;
    var (min, max) := cs.range.value;
    forall row | Allowed(row, c.index, st)
      ensures Eval(e, row, engine).True? <==>
              (TotalCmp(CellAt(row, c.index).v, lo) >= 0 && TotalCmp(CellAt(row, c.index).v, hi) <= 0) != negated
      ensures CanSkip(e, st, None) ==> !Eval(e, row, engine).True?
    {
      var x := CellAt(row, c.index).v;
      EngineOrders(engine, types, c.index, x, low);
      EngineOrders(engine, types, c.index, x, high);
      if CanSkip(e, st, None) { RefutedBetween(negated, lo, hi, min, max, x); }
    }
    if !CanSkip(e, st, None) {
      var x := UnrefutedBetween(negated, lo, hi, min, max);
      assert Allowed(RowWith(c.index, x), c.index, st);
      assert Eval(e, RowWith(c.index, x), engine).True?;
    }
  }

  lemma InListDecides(c: Column, list: seq<Literal>, st: GroupStats, types: seq<DataType>, engine: Engine)
    requires EngineAgrees(engine, types) && Decidable(InList(c, false, list), st)
    requires 0 <= c.index < |types| && types[c.index] == st.cols[c.index].dtype
    ensures CanSkip(InList(c, false, list), st, None) <==>
            forall row | Allowed(row, c.index, st) :: !Eval(InList(c, false, list), row, engine).True?
  {
    var e, cs := InList(c, false, list), st.cols[c.index];
    forall k | 0 <= k < |list|
      ensures InElementAbsent(c.index, list[k], cs, None) <==>
              forall row | Allowed(row, c.index, st) :: !Eval(Compare(c, Eq, list[k]), row, engine).True?
    {
      CompareDecides(c, Eq, list[k], st, types, engine);
    }
    if CanSkip(e, st, None) {
      forall row, k | Allowed(row, c.index, st) && 0 <= k < |list|
        ensures engine.cmp(c.index, CellAt(row, c.index).v, list[k]) != 0
      {
        assert InElementAbsent(c.index, list[k], cs, None);
        assert !Eval(Compare(c, Eq, list[k]), row, engine).True?;
      }
    } else {
      var k :| 0 <= k < |list| && !InElementAbsent(c.index, list[k], cs, None);
      var row :| Allowed(row, c.index, st) && Eval(Compare(c, Eq, list[k]), row, engine).True?;
      assert Eval(e, row, engine).True?;
    }
  }

  /**
   * Where the literals and the statistics can be used and no filter is probed, a leaf is skipped exactly when no
   * value the statistics allow can satisfy it.
   */
  lemma LeafSkipsExactly(e: Expr, st: GroupStats, types: seq<DataType>, engine: Engine)
    requires EngineAgrees(engine, types) && Decidable(e, st)
    requires 0 <= e.column.index < |types| && types[e.column.index] == st.cols[e.column.index].dtype
    ensures CanSkip(e, st, None) <==>
            forall row | Allowed(row, e.column.index, st) :: !Eval(e, row, engine).True?
  {
    match e
    case Compare(c, op, l) => CompareDecides(c, op, l, st, types, engine);
    case Between(c, negated, low, high) => BetweenDecides(c, negated, low, high, st, types, engine);
    case InList(c, _, list) => InListDecides(c, list, st, types, engine);
  }

  /** With a known null count, IS [NOT] NULL is decided exactly for the rows at hand. */
  lemma NullTestSkipsExactly(c: Column, negated: bool, st: GroupStats, types: seq<DataType>, rows: seq<Row>,
                             engine: Engine)
    requires Faithful(st, types, rows) && c.index in st.cols && st.cols[c.index].nullCount.Some?
    ensures CanSkip(IsNull(c, negated), st, None) <==>
            forall r | r in rows :: !Eval(IsNull(c, negated), r, engine).True?
  {
    forall r | r in rows
      ensures CanSkip(IsNull(c, negated), st, None) ==> !Eval(IsNull(c, negated), r, engine).True?
    {
      CountNullsExtremes(rows, c.index, r);
    }
    if forall r | r in rows :: !Eval(IsNull(c, negated), r, engine).True? {
      CountUniform(rows, c.index, negated);
    }
  }

  lemma {:induction false} CountUniform(rows: seq<Row>, c: int, isNull: bool)
    requires forall r | r in rows :: CellAt(r, c).Null? == isNull
    ensures CountNulls(rows, c) == if isNull then |rows| else 0
  {
    if rows != [] {
      CountUniform(rows[1..], c, isNull);
    }
  }

  // ----- De Morgan on the fly is De Morgan beforehand -----

  /** Negation normal form; `negated` says whether a NOT is pending above. */
  function Nnf(e: Expr, negated: bool): Expr {
    match e
    case And(l, r) => if negated then Or(Nnf(l, true), Nnf(r, true)) else And(Nnf(l, false), Nnf(r, false))
    case Or(l, r) => if negated then And(Nnf(l, true), Nnf(r, true)) else Or(Nnf(l, false), Nnf(r, false))
    case Not(x) => Nnf(x, !negated)
    case _ => if negated then Negate(e) else e
  }

  predicate HasNoNot(e: Expr) {
    match e
    case And(l, r) => HasNoNot(l) && HasNoNot(r)
    case Or(l, r) => HasNoNot(l) && HasNoNot(r)
    case Not(_) => false
    case _ => true
  }

  /** Reads a NOT-free predicate with every refuted leaf false and every other leaf true. */
  predicate Possible(e: Expr, st: GroupStats, bloom: Option<Prober>)
    requires HasNoNot(e)
  {
    match e
    case And(l, r) => Possible(l, st, bloom) && Possible(r, st, bloom)
    case Or(l, r) => Possible(l, st, bloom) || Possible(r, st, bloom)
    case Compare(c, op, l) => !CanSkipCompare(c.index, op, l, st, bloom)
    case IsNull(c, negated) => !CanSkipIsNull(c.index, negated, st)
    case Between(c, negated, low, high) => !CanSkipBetween(c.index, negated, low, high, st)
    case InList(c, negated, list) => !CanSkipInList(c.index, negated, list, st, bloom)
  }

  lemma {:induction false} NnfKeepsMeaning(e: Expr, negated: bool, row: Row, engine: Engine)
    ensures HasNoNot(Nnf(e, negated))
    ensures Eval(Nnf(e, negated), row, engine) == NegateIf(negated, Eval(e, row, engine))
  {
    match e
    case And(l, r) =>
      NnfKeepsMeaning(l, negated, row, engine);
      NnfKeepsMeaning(r, negated, row, engine);
    case Or(l, r) =>
      NnfKeepsMeaning(l, negated, row, engine);
      NnfKeepsMeaning(r, negated, row, engine);
    case Not(x) => NnfKeepsMeaning(x, !negated, row, engine);
    case _ => NegateIsNot3(e, row, engine);
  }

  /** The evaluator's answer for a whole tree: the normal form of the predicate is impossible leaf by leaf. */
  lemma {:induction false} CanSkipReadsNormalForm(e: Expr, negated: bool, st: GroupStats, bloom: Option<Prober>)
    ensures HasNoNot(Nnf(e, negated))
    ensures CanSkip(if negated then Not(e) else e, st, bloom) <==> !Possible(Nnf(e, negated), st, bloom)
  {
    match e
    case And(l, r) =>
      CanSkipReadsNormalForm(l, negated, st, bloom);
      CanSkipReadsNormalForm(r, negated, st, bloom);
    case Or(l, r) =>
      CanSkipReadsNormalForm(l, negated, st, bloom);
      CanSkipReadsNormalForm(r, negated, st, bloom);
    case Not(x) =>
      CanSkipReadsNormalForm(x, !negated, st, bloom);
    case _ =>
  }
}
