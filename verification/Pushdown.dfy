/** The recognizer of pushable predicates, `rust/datafusion-c-abi/src/pushdown.rs`. */
module Pushdown {
  import opened Wrappers
  import opened Values
  import opened Predicates
  import Base64

  // ----- Engine expressions -----

  datatype Scalar =
    | ScalarBool(b: Option<bool>)
    | ScalarInt(width: Width, i: Option<int>)
    | ScalarUint(width: Width, u: Option<int>)
    | ScalarFloat32(f: Option<Float>)
    | ScalarFloat64(f: Option<Float>)
    | ScalarUtf8(layout: Layout, text: Option<string>)
    | ScalarBinary(layout: Layout, bytes: Option<seq<Byte>>)
    | ScalarDate32(days: Option<int>)
    | ScalarDate64(millis: Option<int>)
    | ScalarTimestamp(unit: TimeUnit, ticks: Option<int>, tz: Option<string>)
    | ScalarOther(id: int)

  /** How a string or binary scalar is laid out in memory; it does not change the value. */
  datatype Layout = Plain | Large | View

  datatype Operator = OpAnd | OpOr | OpEq | OpNotEq | OpLt | OpLtEq | OpGt | OpGtEq | OpOther

  datatype EngineExpr =
    | ColumnExpr(name: string)
    | LiteralExpr(scalar: Scalar)
    | BinaryExpr(left: EngineExpr, op: Operator, right: EngineExpr)
    | IsNullExpr(inner: EngineExpr)
    | IsNotNullExpr(inner: EngineExpr)
    | NotExpr(inner: EngineExpr)
    | BetweenExpr(inner: EngineExpr, negated: bool, low: EngineExpr, high: EngineExpr)
    | InListExpr(inner: EngineExpr, list: seq<EngineExpr>, negated: bool)
    | OtherExpr(id: int)

  // ----- The wire AST -----

  datatype WireLiteral =
    | WireBool(b: bool)
    | WireInt(width: Width, i: int)
    | WireUint(width: Width, u: int)
    | WireFloat32(f: Float)
    | WireFloat64(f: Float)
    | WireUtf8(text: string)
    | WireBinary(base64: string)
    | WireDate32(days: int)
    | WireDate64(millis: int)
    | WireTimestamp(ticks: int, unit: TimeUnit, tz: Option<string>)

  type PushExpr = Predicate<WireLiteral>

  /** `Schema::index_of`: the first field of the name. */
  function IndexOf(name: string, schema: seq<string>): (i: Option<nat>)
    ensures i.Some? ==> i.value < |schema| && schema[i.value] == name && name !in schema[..i.value]
    ensures i.None? ==> name !in schema
  {
    if schema == [] then None
    else if schema[0] == name then Some(0)
    else
      var rest := IndexOf(name, schema[1..]);
      if rest.None? then None
      else
        assert schema[..rest.value + 1] == [schema[0]] + schema[1..][..rest.value];
        Some(rest.value + 1)
  }

  function ColumnRef(e: EngineExpr, schema: seq<string>): Option<Column> {
    if e.ColumnExpr? && IndexOf(e.name, schema).Some? then Some(Column(e.name, IndexOf(e.name, schema).value)) else None
  }

  function ScalarToLiteral(s: Scalar): Option<WireLiteral> {
    match s
    case ScalarBool(Some(b)) => Some(WireBool(b))
    case ScalarInt(w, Some(i)) => Some(WireInt(w, i))
    case ScalarUint(w, Some(u)) => Some(WireUint(w, u))
    case ScalarFloat32(Some(f)) => Some(WireFloat32(f))
    case ScalarFloat64(Some(f)) => Some(WireFloat64(f))
    case ScalarUtf8(_, Some(t)) => Some(WireUtf8(t))
    case ScalarBinary(_, Some(b)) => Some(WireBinary(Base64.Encode(b)))
    case ScalarDate32(Some(d)) => Some(WireDate32(d))
    case ScalarDate64(Some(m)) => Some(WireDate64(m))
    case ScalarTimestamp(unit, Some(t), tz) => Some(WireTimestamp(t, unit, tz))
    case _ => None
  }

  function LiteralOf(e: EngineExpr): Option<WireLiteral> {
    if e.LiteralExpr? then ScalarToLiteral(e.scalar) else None
  }

  function LiteralsOf(list: seq<EngineExpr>): (r: Option<seq<WireLiteral>>)
    ensures r.Some? <==> forall k | 0 <= k < |list| :: LiteralOf(list[k]).Some?
    ensures r.Some? ==> |r.value| == |list| && forall k | 0 <= k < |list| :: r.value[k] == LiteralOf(list[k]).value
  {
    if list == [] then Some([])
    else
      var first, rest := LiteralOf(list[0]), LiteralsOf(list[1..]);
      if first.Some? && rest.Some? then Some([first.value] + rest.value) else None
  }

  function ToCompareOp(op: Operator): Option<CompareOp> {
    match op
    case OpEq => Some(Eq)
    case OpNotEq => Some(Neq)
    case OpLt => Some(Lt)
    case OpLtEq => Some(LtEq)
    case OpGt => Some(Gt)
    case OpGtEq => Some(GtEq)
    case _ => None
  }

  /** `Operator::swap`: the operator for the operands exchanged. */
  function Swap(op: Operator): Option<Operator> {
    match op
    case OpEq => Some(OpEq)
    case OpNotEq => Some(OpNotEq)
    case OpLt => Some(OpGt)
    case OpLtEq => Some(OpGtEq)
    case OpGt => Some(OpLt)
    case OpGtEq => Some(OpLtEq)
    case _ => None
  }

  function Classify(e: EngineExpr, schema: seq<string>): Option<PushExpr> {
    match e
    case BinaryExpr(l, op, r) =>
      if op.OpAnd? || op.OpOr? then Both(Classify(l, schema), Classify(r, schema), op.OpAnd?)
      else if ToCompareOp(op).None? then None
      else if ColumnRef(l, schema).Some? && LiteralOf(r).Some? then
        Some(Compare(ColumnRef(l, schema).value, ToCompareOp(op).value, LiteralOf(r).value))
      else if LiteralOf(l).Some? && ColumnRef(r, schema).Some? then
        Some(Compare(ColumnRef(r, schema).value, ToCompareOp(Swap(op).value).value, LiteralOf(l).value))
      else None
    case IsNullExpr(x) => if ColumnRef(x, schema).Some? then Some(IsNull(ColumnRef(x, schema).value, false)) else None
    case IsNotNullExpr(x) => if ColumnRef(x, schema).Some? then Some(IsNull(ColumnRef(x, schema).value, true)) else None
    case NotExpr(x) => if Classify(x, schema).Some? then Some(Not(Classify(x, schema).value)) else None
    case BetweenExpr(x, negated, low, high) =>
      if ColumnRef(x, schema).Some? && LiteralOf(low).Some? && LiteralOf(high).Some? then
        Some(Between(ColumnRef(x, schema).value, negated, LiteralOf(low).value, LiteralOf(high).value))
      else None
    case InListExpr(x, list, negated) =>
      if ColumnRef(x, schema).Some? && LiteralsOf(list).Some? then
        Some(InList(ColumnRef(x, schema).value, negated, LiteralsOf(list).value))
      else None
    case _ => None
  }

  function Both(l: Option<PushExpr>, r: Option<PushExpr>, conjunction: bool): Option<PushExpr> {
    if l.None? || r.None? then None
    else if conjunction then Some(And(l.value, r.value))
    else Some(Or(l.value, r.value))
  }

  // ----- Meaning of engine expressions -----

  /** The value of a scalar, if it has one the AST can name. */
  function ScalarValue(s: Scalar): Option<Literal> {
    match s
    case ScalarBool(Some(b)) => Some(LitBool(b))
    case ScalarInt(w, Some(i)) => Some(LitInt(w, i))
    case ScalarUint(w, Some(u)) => Some(LitUint(w, u))
    case ScalarFloat32(Some(f)) => Some(LitFloat32(f))
    case ScalarFloat64(Some(f)) => Some(LitFloat64(f))
    case ScalarUtf8(_, Some(t)) => Some(LitUtf8(t))
    case ScalarBinary(_, Some(b)) => Some(LitBinary(b))
    case ScalarDate32(Some(d)) => Some(LitDate32(d))
    case ScalarDate64(Some(m)) => Some(LitDate64(m))
    case ScalarTimestamp(unit, Some(t), tz) => Some(LitTimestamp(t, unit, ZoneName(tz)))
    case _ => None
  }

  /** Go has the empty string for "no time zone". */
  function ZoneName(tz: Option<string>): string {
    if tz.Some? then tz.value else ""
  }

  datatype Operand = CellOperand(c: int, cell: Cell) | LiteralOperand(l: Literal) | OtherOperand

  function OperandOf(e: EngineExpr, row: Row, schema: seq<string>): Operand {
    match e
    case ColumnExpr(name) =>
      if IndexOf(name, schema).Some? then
        CellOperand(IndexOf(name, schema).value, CellAt(row, IndexOf(name, schema).value))
      else OtherOperand
    case LiteralExpr(s) => if ScalarValue(s).Some? then LiteralOperand(ScalarValue(s).value) else OtherOperand
    case _ => OtherOperand
  }

  /** Whatever the AST does not cover evaluates in some way of the engine's own. */
  type Elsewhere = (EngineExpr, Row) -> Truth

  predicate IsComparison(op: Operator) {
    !op.OpAnd? && !op.OpOr? && !op.OpOther?
  }

  /** What the engine's operator says of how its operands are ordered. */
  predicate OperatorHolds(op: Operator, sign: int)
    requires IsComparison(op)
  {
    match op
    case OpEq => sign == 0
    case OpNotEq => sign != 0
    case OpLt => sign < 0
    case OpLtEq => sign <= 0
    case OpGt => sign > 0
    case OpGtEq => sign >= 0
  }

  /** Comparing a literal with a column is comparing the column with the literal, sign reversed. */
  function CompareOperands(op: Operator, a: Operand, b: Operand, engine: Engine, otherwise: Truth): Truth
    requires IsComparison(op)
  {
    match (a, b)
    case (CellOperand(c, cell), LiteralOperand(l)) =>
      if cell.Null? then Unknown else Decided(OperatorHolds(op, engine.cmp(c, cell.v, l)))
    case (LiteralOperand(l), CellOperand(c, cell)) =>
      if cell.Null? then Unknown else Decided(OperatorHolds(op, -engine.cmp(c, cell.v, l)))
    case _ => otherwise
  }

  function EvalEngine(e: EngineExpr, row: Row, schema: seq<string>, engine: Engine, elsewhere: Elsewhere): Truth {
    match e
    case BinaryExpr(l, op, r) =>
      if op.OpAnd? then
        And3(EvalEngine(l, row, schema, engine, elsewhere), EvalEngine(r, row, schema, engine, elsewhere))
      else if op.OpOr? then
        Or3(EvalEngine(l, row, schema, engine, elsewhere), EvalEngine(r, row, schema, engine, elsewhere))
      else if !IsComparison(op) then elsewhere(e, row)
      else CompareOperands(op, OperandOf(l, row, schema), OperandOf(r, row, schema), engine, elsewhere(e, row))
    case IsNullExpr(x) =>
      var a := OperandOf(x, row, schema);
      if a.CellOperand? then Decided(a.cell.Null?) else elsewhere(e, row)
    case IsNotNullExpr(x) =>
      var a := OperandOf(x, row, schema);
      if a.CellOperand? then Decided(!a.cell.Null?) else elsewhere(e, row)
    case NotExpr(x) => Not3(EvalEngine(x, row, schema, engine, elsewhere))
    case BetweenExpr(x, negated, low, high) =>
      var a, lo, hi := OperandOf(x, row, schema), OperandOf(low, row, schema), OperandOf(high, row, schema);
      if a.CellOperand? && lo.LiteralOperand? && hi.LiteralOperand? then
        NegateIf(negated, And3(CompareOperands(OpGtEq, a, lo, engine, Unknown),
                               CompareOperands(OpLtEq, a, hi, engine, Unknown)))
      else elsewhere(e, row)
    case InListExpr(x, list, negated) =>
      var a := OperandOf(x, row, schema);
      if a.CellOperand? && forall k | 0 <= k < |list| :: OperandOf(list[k], row, schema).LiteralOperand? then
        NegateIf(negated, EvalAnyOf(a, list, row, schema, engine))
      else elsewhere(e, row)
    case _ => elsewhere(e, row)
  }

  /** The column equals one of the listed literals. */
  function EvalAnyOf(a: Operand, list: seq<EngineExpr>, row: Row, schema: seq<string>, engine: Engine): Truth
    requires a.CellOperand? && forall k | 0 <= k < |list| :: OperandOf(list[k], row, schema).LiteralOperand?
  {
    if a.cell.Null? then (if list == [] then engine.nullInEmpty else Unknown)
    else Decided(exists k :: 0 <= k < |list| && engine.cmp(a.c, a.cell.v, OperandOf(list[k], row, schema).l) == 0)
  }

  // ----- Classification keeps the meaning -----

  /** A wire literal as the Go side holds it. */
  function GoLiteral(w: WireLiteral): Literal {
    match w
    case WireBool(b) => LitBool(b)
    case WireInt(width, i) => LitInt(width, i)
    case WireUint(width, u) => LitUint(width, u)
    case WireFloat32(f) => LitFloat32(f)
    case WireFloat64(f) => LitFloat64(f)
    case WireUtf8(t) => LitUtf8(t)
    case WireBinary(s) => LitBinary(if Base64.Decode(s).Some? then Base64.Decode(s).value else [])
    case WireDate32(d) => LitDate32(d)
    case WireDate64(m) => LitDate64(m)
    case WireTimestamp(t, unit, tz) => LitTimestamp(t, unit, ZoneName(tz))
  }

  function GoLiterals(list: seq<WireLiteral>): (r: seq<Literal>)
    ensures |r| == |list| && forall k | 0 <= k < |r| :: r[k] == GoLiteral(list[k])
  {
    if list == [] then [] else [GoLiteral(list[0])] + GoLiterals(list[1..])
  }

  function GoExpr(p: PushExpr): Expr {
    match p
    case Compare(c, op, l) => Compare(c, op, GoLiteral(l))
    case IsNull(c, negated) => IsNull(c, negated)
    case Between(c, negated, low, high) => Between(c, negated, GoLiteral(low), GoLiteral(high))
    case InList(c, negated, list) => InList(c, negated, GoLiterals(list))
    case And(l, r) => And(GoExpr(l), GoExpr(r))
    case Or(l, r) => Or(GoExpr(l), GoExpr(r))
    case Not(x) => Not(GoExpr(x))
  }

  lemma LiteralKeepsValue(s: Scalar)
    ensures ScalarToLiteral(s).Some? <==> ScalarValue(s).Some?
    ensures ScalarToLiteral(s).Some? ==> GoLiteral(ScalarToLiteral(s).value) == ScalarValue(s).value
  {
    match s
    case ScalarBinary(_, Some(b)) => Base64.DecodeInvertsEncode(b);
    case _ =>
  }

  lemma OperandIsColumnOrLiteral(e: EngineExpr, row: Row, schema: seq<string>)
    ensures ColumnRef(e, schema).Some? <==> OperandOf(e, row, schema).CellOperand?
    ensures LiteralOf(e).Some? <==> OperandOf(e, row, schema).LiteralOperand?
    ensures ColumnRef(e, schema).Some? ==>
              OperandOf(e, row, schema) ==
              CellOperand(ColumnRef(e, schema).value.index, CellAt(row, ColumnRef(e, schema).value.index))
    ensures LiteralOf(e).Some? ==> OperandOf(e, row, schema) == LiteralOperand(GoLiteral(LiteralOf(e).value))
  {
    if e.LiteralExpr? {
      LiteralKeepsValue(e.scalar);
    }
  }

  lemma ComparisonKeepsMeaning(l: EngineExpr, op: Operator, r: EngineExpr, row: Row, schema: seq<string>,
                               engine: Engine, elsewhere: Elsewhere)
    requires IsComparison(op) && Classify(BinaryExpr(l, op, r), schema).Some?
    ensures var e := BinaryExpr(l, op, r);
            Eval(GoExpr(Classify(e, schema).value), row, engine) == EvalEngine(e, row, schema, engine, elsewhere)
  {
    OperandIsColumnOrLiteral(l, row, schema);
    OperandIsColumnOrLiteral(r, row, schema);
  }

  /** A recognized expression, mirrored comparisons included, means on every row what the engine means by it. */
  lemma {:induction false} ClassifyKeepsMeaning(e: EngineExpr, row: Row, schema: seq<string>, engine: Engine,
                                                elsewhere: Elsewhere)
    requires Classify(e, schema).Some?
    ensures Eval(GoExpr(Classify(e, schema).value), row, engine) == EvalEngine(e, row, schema, engine, elsewhere)
  {
    match e
    case BinaryExpr(l, op, r) =>
      if op.OpAnd? || op.OpOr? {
        ClassifyKeepsMeaning(l, row, schema, engine, elsewhere);
        ClassifyKeepsMeaning(r, row, schema, engine, elsewhere);
      } else {
        ComparisonKeepsMeaning(l, op, r, row, schema, engine, elsewhere);
      }
    case IsNullExpr(x) => OperandIsColumnOrLiteral(x, row, schema);
    case IsNotNullExpr(x) => OperandIsColumnOrLiteral(x, row, schema);
    case NotExpr(x) => ClassifyKeepsMeaning(x, row, schema, engine, elsewhere);
    case BetweenExpr(x, _, low, high) =>
      OperandIsColumnOrLiteral(x, row, schema);
      OperandIsColumnOrLiteral(low, row, schema);
      OperandIsColumnOrLiteral(high, row, schema);
    case InListExpr(x, list, _) =>
      OperandIsColumnOrLiteral(x, row, schema);
      forall k | 0 <= k < |list|
        ensures OperandOf(list[k], row, schema) == LiteralOperand(GoLiteral(LiteralOf(list[k]).value))
      {
        OperandIsColumnOrLiteral(list[k], row, schema);
      }
  }

  /** The expressions the AST covers: nothing else is recognized, and all of them are. */
  predicate Covered(e: EngineExpr, schema: seq<string>) {
    match e
    case BinaryExpr(l, op, r) =>
      if op.OpAnd? || op.OpOr? then Covered(l, schema) && Covered(r, schema)
      else !op.OpOther? && ((IsColumn(l, schema) && IsLiteral(r)) || (IsLiteral(l) && IsColumn(r, schema)))
    case IsNullExpr(x) => IsColumn(x, schema)
    case IsNotNullExpr(x) => IsColumn(x, schema)
    case NotExpr(x) => Covered(x, schema)
    case BetweenExpr(x, _, low, high) => IsColumn(x, schema) && IsLiteral(low) && IsLiteral(high)
    case InListExpr(x, list, _) => IsColumn(x, schema) && forall k | 0 <= k < |list| :: IsLiteral(list[k])
    case _ => false
  }

  predicate IsColumn(e: EngineExpr, schema: seq<string>) {
    e.ColumnExpr? && e.name in schema
  }

  predicate IsLiteral(e: EngineExpr) {
    e.LiteralExpr? && ScalarValue(e.scalar).Some?
  }

  lemma {:induction false} ClassifyRecognizesCovered(e: EngineExpr, schema: seq<string>)
    ensures Classify(e, schema).Some? <==> Covered(e, schema)
  {
    match e
    case BinaryExpr(l, op, r) =>
      if op.OpAnd? || op.OpOr? {
        ClassifyRecognizesCovered(l, schema);
        ClassifyRecognizesCovered(r, schema);
      } else {
        OperandIsColumnOrLiteral(l, [], schema);
        OperandIsColumnOrLiteral(r, [], schema);
      }
    case NotExpr(x) => ClassifyRecognizesCovered(x, schema);
    case BetweenExpr(x, _, low, high) =>
      OperandIsColumnOrLiteral(low, [], schema);
      OperandIsColumnOrLiteral(high, [], schema);
    case InListExpr(x, list, _) =>
      forall k | 0 <= k < |list| ensures LiteralOf(list[k]).Some? <==> IsLiteral(list[k]) {
        OperandIsColumnOrLiteral(list[k], [], schema);
      }
    case _ =>
  }
}
