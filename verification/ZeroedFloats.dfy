/** Float literals that arrive as zero: which predicates only get weaker by it. */
module ZeroedFloats {
  import opened Wrappers
  import opened Values
  import opened Predicates
  import opened Skip
  import opened SkipSoundness
  import opened Wire

  function FloatOf(l: Literal): Option<Float> {
    if l.LitFloat32? || l.LitFloat64? then Some(l.f) else None
  }

  predicate IsFloat(dt: DataType) {
    dt.Float32Type? || dt.Float64Type?
  }

  predicate FloatColumn(c: int, types: seq<DataType>) {
    0 <= c < |types| && IsFloat(types[c])
  }

  function CmpFloat(x: Float, f: Float): int {
    TotalCmp(FloatVal(x), FloatVal(f))
  }

  // ----- Tests of one float column -----

  /** A comparison, BETWEEN or IN with float literals, under any number of NOTs. */
  predicate FloatTest(e: Expr) {
    match e
    case Compare(_, _, l) => FloatOf(l).Some?
    case Between(_, _, low, high) => FloatOf(low).Some? && FloatOf(high).Some?
    case InList(_, _, list) => forall k | 0 <= k < |list| :: FloatOf(list[k]).Some?
    case Not(x) => FloatTest(x)
    case _ => false
  }

  function TestColumn(e: Expr): Column
    requires FloatTest(e)
  {
    match e
    case Not(x) => TestColumn(x)
    case _ => e.column
  }

  predicate EqualsOne(x: Float, list: seq<Literal>)
    requires forall k | 0 <= k < |list| :: FloatOf(list[k]).Some?
  {
    exists k :: 0 <= k < |list| && CmpFloat(x, FloatOf(list[k]).value) == 0
  }

  /** The test's answer for a float, NaN being the greatest. */
  predicate Meets(e: Expr, x: Float)
    requires FloatTest(e)
  {
    match e
    case Compare(_, op, l) => Holds(op, CmpFloat(x, FloatOf(l).value))
    case Between(_, negated, low, high) =>
      (CmpFloat(x, FloatOf(low).value) >= 0 && CmpFloat(x, FloatOf(high).value) <= 0) != negated
    case InList(_, negated, list) => EqualsOne(x, list) != negated
    case Not(y) => !Meets(y, x)
  }

  lemma {:induction false} ArrivingFloatTest(e: Expr)
    requires FloatTest(e)
    ensures FloatTest(Arriving(e)) && TestColumn(Arriving(e)) == TestColumn(e)
  {
    if e.Not? {
      ArrivingFloatTest(e.inner);
    }
  }

  // ----- When zero instead lets more through -----

  predicate HarmlessCompare(op: CompareOp, f: Float) {
    match f
    case PosInf => op.Gt? || op.GtEq?
    case NegInf => op.Lt? || op.LtEq?
    case NaN => op.Gt? || op.GtEq?
    case _ => true
  }

  /** BETWEEN: the interval is empty, or the bounds only move outwards; NOT BETWEEN: the same of what arrives. */
  predicate HarmlessBetween(negated: bool, lo: Float, hi: Float) {
    if negated then
      CmpFloat(Arrives(lo), Arrives(hi)) > 0 || (CmpFloat(lo, Arrives(lo)) <= 0 && CmpFloat(Arrives(hi), hi) <= 0)
    else CmpFloat(lo, hi) > 0 || (CmpFloat(Arrives(lo), lo) <= 0 && CmpFloat(hi, Arrives(hi)) <= 0)
  }

  predicate AllFinite(list: seq<Literal>)
    requires forall k | 0 <= k < |list| :: FloatOf(list[k]).Some?
  {
    forall k | 0 <= k < |list| :: IsFinite(FloatOf(list[k]).value)
  }

  /** IN: nothing is replaced; NOT IN: zero is in the list anyway. */
  predicate HarmlessIn(negated: bool, list: seq<Literal>)
    requires forall k | 0 <= k < |list| :: FloatOf(list[k]).Some?
  {
    AllFinite(list) || (negated && EqualsOne(Fin(0.0), list))
  }

  /** `negated` says whether a NOT is pending above. */
  predicate HarmlessTest(e: Expr, negated: bool)
    requires FloatTest(e)
  {
    match e
    case Compare(_, op, l) => HarmlessCompare(if negated then NegateOp(op) else op, FloatOf(l).value)
    case Between(_, n, low, high) => HarmlessBetween(n != negated, FloatOf(low).value, FloatOf(high).value)
    case InList(_, n, list) => HarmlessIn(n != negated, list)
    case Not(x) => HarmlessTest(x, !negated)
  }

  /** What arrives passes everything that was asked for, for this value. */
  predicate Widens(e: Expr, negated: bool, x: Float)
    requires FloatTest(e) && FloatTest(Arriving(e))
  {
    Meets(e, x) != negated ==> Meets(Arriving(e), x) != negated
  }

  lemma BetweenWidens(negated: bool, lo: Float, hi: Float, x: Float)
    requires HarmlessBetween(negated, lo, hi)
    requires (CmpFloat(x, lo) >= 0 && CmpFloat(x, hi) <= 0) != negated
    ensures (CmpFloat(x, Arrives(lo)) >= 0 && CmpFloat(x, Arrives(hi)) <= 0) != negated
  {
  }

  lemma ZeroStandsIn(x: Float, f: Float, zero: Float)
    requires CmpFloat(x, Arrives(f)) == 0 && CmpFloat(Fin(0.0), zero) == 0
    ensures CmpFloat(x, if IsFinite(f) then f else zero) == 0
  {
  }

  /** With zero in the list, what arrives equals nothing new. */
  lemma {:induction false} ZeroIsThere(list: seq<Literal>, x: Float)
    requires forall k | 0 <= k < |list| :: FloatOf(list[k]).Some?
    requires EqualsOne(Fin(0.0), list) && EqualsOne(x, ArrivingLiterals(list))
    ensures EqualsOne(x, list)
  {
    var z :| 0 <= z < |list| && CmpFloat(Fin(0.0), FloatOf(list[z]).value) == 0;
    var k :| 0 <= k < |list| && CmpFloat(x, FloatOf(ArrivingLiterals(list)[k]).value) == 0;
    var f := FloatOf(list[k]).value;
    assert FloatOf(ArrivingLiterals(list)[k]).value == Arrives(f);
    ZeroStandsIn(x, f, FloatOf(list[z]).value);
    assert CmpFloat(x, FloatOf(list[if IsFinite(f) then k else z]).value) == 0;
  }

  lemma {:induction false} ListWidens(list: seq<Literal>, negated: bool, x: Float)
    requires forall k | 0 <= k < |list| :: FloatOf(list[k]).Some?
    requires HarmlessIn(negated, list) && EqualsOne(x, list) != negated
    ensures EqualsOne(x, ArrivingLiterals(list)) != negated
  {
    var there := ArrivingLiterals(list);
    if AllFinite(list) {
      assert forall k | 0 <= k < |list| :: there[k] == list[k];
      assert there == list;
    } else {
      if EqualsOne(x, there) { ZeroIsThere(list, x); }
    }
  }

  lemma {:induction false} HarmlessWidens(e: Expr, negated: bool, x: Float)
    requires FloatTest(e) && FloatTest(Arriving(e)) && HarmlessTest(e, negated)
    ensures Widens(e, negated, x)
  {
    match e
    case Compare(_, _, _) =>
    case Between(_, n, low, high) =>
      if Meets(e, x) != negated {
        BetweenWidens(n != negated, FloatOf(low).value, FloatOf(high).value, x);
      }
    case InList(_, n, list) =>
      if Meets(e, x) != negated {
        ListWidens(list, n != negated, x);
      }
    case Not(y) => HarmlessWidens(y, !negated, x);
  }

  // ----- The values that are lost otherwise -----

  function LostByCompare(op: CompareOp, f: Float): Float {
    if op.Eq? then f
    else if op.Neq? then Fin(0.0)
    else if op.Lt? || op.LtEq? then Fin(1.0)
    else Fin(-1.0)
  }

  function LostByBetween(negated: bool, lo: Float, hi: Float): Float {
    if negated then (if CmpFloat(lo, Arrives(lo)) > 0 then Arrives(lo) else Arrives(hi))
    else if CmpFloat(Arrives(lo), lo) > 0 then lo
    else if !hi.NaN? then hi
    else if lo.NaN? then NaN
    else PosInf
  }

  function FirstZeroed(list: seq<Literal>): nat
    requires forall k | 0 <= k < |list| :: FloatOf(list[k]).Some?
    requires !AllFinite(list)
    ensures FirstZeroed(list) < |list| && !IsFinite(FloatOf(list[FirstZeroed(list)]).value)
  {
    if !IsFinite(FloatOf(list[0]).value) then 0 else 1 + FirstZeroed(list[1..])
  }

  /** A value that was asked for and does not arrive. */
  function Lost(e: Expr, negated: bool): Float
    requires FloatTest(e) && !HarmlessTest(e, negated)
  {
    match e
    case Compare(_, op, l) => LostByCompare(if negated then NegateOp(op) else op, FloatOf(l).value)
    case Between(_, n, low, high) => LostByBetween(n != negated, FloatOf(low).value, FloatOf(high).value)
    case InList(_, n, list) => if n != negated then Fin(0.0) else FloatOf(list[FirstZeroed(list)]).value
    case Not(x) => Lost(x, !negated)
  }

  lemma LostByCompareIsLost(op: CompareOp, f: Float)
    requires !HarmlessCompare(op, f)
    ensures var x := LostByCompare(op, f);
            && Holds(op, CmpFloat(x, f)) && !Holds(op, CmpFloat(x, Arrives(f)))
            && (x.NaN? ==> op.Eq?)
  {
  }

  lemma LostByBetweenIsLost(negated: bool, lo: Float, hi: Float)
    requires !HarmlessBetween(negated, lo, hi)
    ensures var x := LostByBetween(negated, lo, hi);
            && (CmpFloat(x, lo) >= 0 && CmpFloat(x, hi) <= 0) != negated
            && (CmpFloat(x, Arrives(lo)) >= 0 && CmpFloat(x, Arrives(hi)) <= 0) == negated
            && (x.NaN? ==> !negated && !(CmpFloat(PosInf, Arrives(lo)) >= 0 && CmpFloat(PosInf, Arrives(hi)) <= 0))
  {
  }

  /** Only finite values arrive. */
  lemma {:induction false} ArrivingListIsFinite(list: seq<Literal>)
    requires forall k | 0 <= k < |list| :: FloatOf(list[k]).Some?
    ensures AllFinite(ArrivingLiterals(list))
  {
    var there := ArrivingLiterals(list);
    forall k | 0 <= k < |list| ensures FloatOf(there[k]).Some? && IsFinite(FloatOf(there[k]).value) {
      assert there[k] == ArrivingLiteral(list[k]);
    }
  }

  lemma {:induction false} NonFiniteEqualsNoFinite(x: Float, list: seq<Literal>)
    requires forall k | 0 <= k < |list| :: FloatOf(list[k]).Some?
    requires AllFinite(list) && !IsFinite(x)
    ensures !EqualsOne(x, list)
  {
  }

  lemma {:induction false} LostByListIsLost(list: seq<Literal>, negated: bool)
    requires forall k | 0 <= k < |list| :: FloatOf(list[k]).Some?
    requires !HarmlessIn(negated, list)
    ensures var x := if negated then Fin(0.0) else FloatOf(list[FirstZeroed(list)]).value;
            && EqualsOne(x, list) != negated && EqualsOne(x, ArrivingLiterals(list)) == negated
            && (!negated ==> !EqualsOne(PosInf, ArrivingLiterals(list)))
  {
    var there, z := ArrivingLiterals(list), FirstZeroed(list);
    var f := FloatOf(list[z]).value;
    ArrivingListIsFinite(list);
    NonFiniteEqualsNoFinite(f, there);
    NonFiniteEqualsNoFinite(PosInf, there);
    assert FloatOf(there[z]).value == Fin(0.0);
    assert CmpFloat(Fin(0.0), FloatOf(there[z]).value) == 0;
    assert CmpFloat(f, f) == 0;
  }

  /** The test, with the pending NOT, fails on NaN whatever its literals, unless one of them is NaN itself. */
  predicate RejectsNaNs(e: Expr, negated: bool)
    requires FloatTest(e)
  {
    NaNsHarmless(e, negated, (c: int) => true)
  }

  /** The lost value is lost; if it is a NaN, the test is one for which bounds may leave NaNs out. */
  lemma {:induction false} LostIsLost(e: Expr, negated: bool)
    requires FloatTest(e) && FloatTest(Arriving(e)) && !HarmlessTest(e, negated)
    ensures var x := Lost(e, negated);
            && Meets(e, x) != negated && Meets(Arriving(e), x) == negated
            && (x.NaN? ==> RejectsNaNs(e, negated) && Meets(Arriving(e), PosInf) == negated)
  {
    match e
    case Compare(_, op, l) => LostByCompareIsLost(if negated then NegateOp(op) else op, FloatOf(l).value);
    case Between(_, n, low, high) => LostByBetweenIsLost(n != negated, FloatOf(low).value, FloatOf(high).value);
    case InList(_, n, list) => LostByListIsLost(list, n != negated);
    case Not(y) => LostIsLost(y, !negated);
  }

  /** The exact condition for one test: zero instead lets through, of all floats, whatever the test itself does. */
  lemma HarmlessExactly(e: Expr, negated: bool)
    requires FloatTest(e) && FloatTest(Arriving(e))
    ensures HarmlessTest(e, negated) <==> forall x :: Widens(e, negated, x)
  {
    if HarmlessTest(e, negated) {
      forall x ensures Widens(e, negated, x) {
        HarmlessWidens(e, negated, x);
      }
    } else {
      LostIsLost(e, negated);
      assert !Widens(e, negated, Lost(e, negated));
    }
  }

  // ----- Whole predicates -----

  /**
   * A predicate of any depth of which what arrives is implied; `negated` says whether a NOT is pending above. A leaf
   * arrives unchanged, or it is a test of a float column that lets more through.
   */
  predicate HarmlessTree(e: Expr, negated: bool, types: seq<DataType>) {
    match e
    case IsNull(_, _) => true
    case And(a, b) => HarmlessTree(a, negated, types) && HarmlessTree(b, negated, types)
    case Or(a, b) => HarmlessTree(a, negated, types) && HarmlessTree(b, negated, types)
    case Not(x) => HarmlessTree(x, !negated, types)
    case _ => Arriving(e) == e || (FloatTest(e) && FloatColumn(e.column.index, types) && HarmlessTest(e, negated))
  }

  /** The engine, with float columns in the float order throughout. */
  function FloatEngine(engine: Engine, types: seq<DataType>): Engine {
    Engine((c: int, x: StatValue, l: Literal) =>
             if FloatColumn(c, types) && x.FloatVal? && FloatOf(l).Some? then CmpFloat(x.f, FloatOf(l).value)
             else engine.cmp(c, x, l),
           engine.nullInEmpty)
  }

  /** In a float column agreement is the float order. */
  lemma AgreesInFloats(c: int, l: Literal, types: seq<DataType>, r: Row, engine: Engine)
    requires FloatColumn(c, types) && FloatOf(l).Some? && CellAt(r, c).Val? && CellAt(r, c).v.FloatVal?
    ensures Agrees(c, l, types, r, engine) <==>
            Sign(engine.cmp(c, CellAt(r, c).v, l)) == Sign(CmpFloat(CellAt(r, c).v.f, FloatOf(l).value))
  {
    AgreesInValues(c, l, types, r, engine);
  }

  /** Where the engine is in the float order anyway, that changes no comparison. */
  lemma AlreadyInOrder(c: int, l: Literal, types: seq<DataType>, r: Row, engine: Engine)
    requires Agrees(c, l, types, r, engine) && CellAt(r, c).Val?
    ensures Sign(FloatEngine(engine, types).cmp(c, CellAt(r, c).v, l)) == Sign(engine.cmp(c, CellAt(r, c).v, l))
  {
    if FloatColumn(c, types) && FloatOf(l).Some? && CellAt(r, c).v.FloatVal? {
      AgreesInFloats(c, l, types, r, engine);
    }
  }

  lemma {:induction false} UnchangedLeaf(e: Expr, types: seq<DataType>, r: Row, engine: Engine)
    requires e.Compare? || e.Between? || e.InList?
    requires AgreesOn(e, types, r, engine)
    ensures Eval(e, r, FloatEngine(engine, types)) == Eval(e, r, engine)
  {
    if CellAt(r, e.column.index).Val? {
      match e
      case Compare(c, _, l) => AlreadyInOrder(c.index, l, types, r, engine);
      case Between(c, _, low, high) =>
        AlreadyInOrder(c.index, low, types, r, engine);
        AlreadyInOrder(c.index, high, types, r, engine);
      case InList(c, _, list) =>
        forall k | 0 <= k < |list|
          ensures FloatEngine(engine, types).cmp(c.index, CellAt(r, c.index).v, list[k]) == 0 <==>
                  engine.cmp(c.index, CellAt(r, c.index).v, list[k]) == 0
        {
          AlreadyInOrder(c.index, list[k], types, r, engine);
        }
    }
  }

  /** A test of a float column, on a float and with an engine in the float order, is what Meets says. */
  lemma {:induction false} EvalsAsFloat(e: Expr, types: seq<DataType>, r: Row, engine: Engine)
    requires FloatTest(e) && FloatColumn(TestColumn(e).index, types) && AgreesOn(e, types, r, engine)
    requires CellAt(r, TestColumn(e).index).Val? && CellAt(r, TestColumn(e).index).v.FloatVal?
    ensures Eval(e, r, engine) == Decided(Meets(e, CellAt(r, TestColumn(e).index).v.f))
  {
    match e
    case Compare(c, _, l) => AgreesInFloats(c.index, l, types, r, engine);
    case Between(c, _, low, high) =>
      AgreesInFloats(c.index, low, types, r, engine);
      AgreesInFloats(c.index, high, types, r, engine);
    case InList(c, _, list) =>
      var x := CellAt(r, c.index).v;
      forall k | 0 <= k < |list|
        ensures engine.cmp(c.index, x, list[k]) == 0 <==> CmpFloat(x.f, FloatOf(list[k]).value) == 0
      {
        assert Agrees(c.index, list[k], types, r, engine);
        AgreesInFloats(c.index, list[k], types, r, engine);
      }
    case Not(y) => EvalsAsFloat(y, types, r, engine);
  }

  lemma FloatEngineOrders(c: int, x: Float, l: Literal, types: seq<DataType>, engine: Engine)
    requires FloatColumn(c, types) && FloatOf(l).Some?
    ensures FloatEngine(engine, types).cmp(c, FloatVal(x), l) == TotalCmp(FloatVal(x), FloatVal(FloatOf(l).value))
  {
    assert FloatEngine(engine, types).cmp(c, FloatVal(x), l) == CmpFloat(x, FloatOf(l).value);
  }

  lemma AgreesArrives(c: int, l: Literal, types: seq<DataType>, r: Row, engine: Engine)
    requires Agrees(c, l, types, r, engine)
    ensures Agrees(c, ArrivingLiteral(l), types, r, FloatEngine(engine, types))
  {
    if 0 <= c < |types| && CellAt(r, c).Val? && FloatOf(l).Some? && FloatColumn(c, types) && CellAt(r, c).v.FloatVal? {
      FloatEngineOrders(c, CellAt(r, c).v.f, ArrivingLiteral(l), types, engine);
      AgreesInFloats(c, ArrivingLiteral(l), types, r, FloatEngine(engine, types));
    }
  }

  lemma {:induction false} AgreesOnArrives(e: Expr, types: seq<DataType>, r: Row, engine: Engine)
    requires AgreesOn(e, types, r, engine)
    ensures AgreesOn(Arriving(e), types, r, FloatEngine(engine, types))
  {
    match e
    case Compare(c, _, l) => AgreesArrives(c.index, l, types, r, engine);
    case IsNull(_, _) =>
    case Between(c, _, low, high) =>
      AgreesArrives(c.index, low, types, r, engine);
      AgreesArrives(c.index, high, types, r, engine);
    case InList(c, _, list) =>
      forall k | 0 <= k < |list|
        ensures Agrees(c.index, ArrivingLiterals(list)[k], types, r, FloatEngine(engine, types))
      {
        AgreesArrives(c.index, list[k], types, r, engine);
      }
    case And(a, b) =>
      AgreesOnArrives(a, types, r, engine);
      AgreesOnArrives(b, types, r, engine);
    case Or(a, b) =>
      AgreesOnArrives(a, types, r, engine);
      AgreesOnArrives(b, types, r, engine);
    case Not(x) => AgreesOnArrives(x, types, r, engine);
  }

  /** Only literals change on the way. */
  lemma {:induction false} ShapeArrives(e: Expr, negated: bool, exposed: int -> bool)
    ensures NaNsHarmless(Arriving(e), negated, exposed) == NaNsHarmless(e, negated, exposed)
    ensures NoEmptyLists(Arriving(e)) == NoEmptyLists(e)
  {
    match e
    case And(a, b) =>
      ShapeArrives(a, negated, exposed);
      ShapeArrives(b, negated, exposed);
    case Or(a, b) =>
      ShapeArrives(a, negated, exposed);
      ShapeArrives(b, negated, exposed);
    case Not(x) => ShapeArrives(x, !negated, exposed);
    case _ =>
  }

  /** True, or false under a pending NOT. */
  predicate Accepts(t: Truth, negated: bool) {
    if negated then t.False? else t.True?
  }

  lemma HarmlessLeaf(e: Expr, negated: bool, types: seq<DataType>, r: Row, engine: Engine)
    requires e.Compare? || e.Between? || e.InList?
    requires HarmlessTree(e, negated, types) && TypedRow(r, types) && AgreesOn(e, types, r, engine)
    requires Accepts(Eval(e, r, engine), negated)
    ensures Accepts(Eval(Arriving(e), r, FloatEngine(engine, types)), negated)
  {
    var c := e.column.index;
    if Arriving(e) == e {
      UnchangedLeaf(e, types, r, engine);
    } else if CellAt(r, c).Val? {
      assert DomainOf(CellAt(r, c).v) == DomainFloat;
      EvalsAsFloat(e, types, r, engine);
      ArrivingFloatTest(e);
      AgreesOnArrives(e, types, r, engine);
      EvalsAsFloat(Arriving(e), types, r, FloatEngine(engine, types));
      HarmlessWidens(e, negated, CellAt(r, c).v.f);
    }
  }

  /** Of a harmless predicate, whatever the engine accepts is accepted of what arrives. */
  lemma {:induction false} HarmlessArrives(e: Expr, negated: bool, types: seq<DataType>, r: Row, engine: Engine)
    requires HarmlessTree(e, negated, types) && TypedRow(r, types) && AgreesOn(e, types, r, engine)
    requires Accepts(Eval(e, r, engine), negated)
    ensures Accepts(Eval(Arriving(e), r, FloatEngine(engine, types)), negated)
  {
    match e
    case IsNull(_, _) =>
    case And(a, b) =>
      if Accepts(Eval(a, r, engine), negated) { HarmlessArrives(a, negated, types, r, engine); }
      if Accepts(Eval(b, r, engine), negated) { HarmlessArrives(b, negated, types, r, engine); }
    case Or(a, b) =>
      if Accepts(Eval(a, r, engine), negated) { HarmlessArrives(a, negated, types, r, engine); }
      if Accepts(Eval(b, r, engine), negated) { HarmlessArrives(b, negated, types, r, engine); }
    case Not(x) => HarmlessArrives(x, !negated, types, r, engine);
    case _ => HarmlessLeaf(e, negated, types, r, engine);
  }

  /** Whatever arrives unchanged is harmless, wherever it stands. */
  lemma {:induction false} UnchangedIsHarmless(e: Expr, negated: bool, types: seq<DataType>)
    requires Arriving(e) == e
    ensures HarmlessTree(e, negated, types)
  {
    match e
    case And(a, b) =>
      UnchangedIsHarmless(a, negated, types);
      UnchangedIsHarmless(b, negated, types);
    case Or(a, b) =>
      UnchangedIsHarmless(a, negated, types);
      UnchangedIsHarmless(b, negated, types);
    case Not(x) => UnchangedIsHarmless(x, !negated, types);
    case _ =>
  }

  lemma {:induction false} UnchangedTestIsHarmless(e: Expr, negated: bool)
    requires FloatTest(e) && Arriving(e) == e
    ensures HarmlessTest(e, negated)
  {
    match e
    case InList(_, _, list) => ArrivingListIsFinite(list);
    case Not(x) => UnchangedTestIsHarmless(x, !negated);
    case _ =>
  }

  /** For a test of a float column that is the exact condition. */
  lemma {:induction false} HarmlessTreeOfTest(e: Expr, negated: bool, types: seq<DataType>)
    requires FloatTest(e) && FloatColumn(TestColumn(e).index, types)
    ensures HarmlessTree(e, negated, types) <==> HarmlessTest(e, negated)
  {
    if e.Not? {
      HarmlessTreeOfTest(e.inner, !negated, types);
    } else if Arriving(e) == e {
      UnchangedTestIsHarmless(e, negated);
    }
  }
}
