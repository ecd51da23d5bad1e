/** The row-group skip evaluator, `providers/parquet/skip.go`. */
module Skip {
  import opened Wrappers
  import opened Values
  import opened Predicates

  datatype DataType =
    | BoolType
    | IntType(width: Width)
    | UintType(width: Width)
    | Float32Type
    | Float64Type
    | StringType(large: bool)
    | BinaryType(large: bool)
    | FixedBinaryType
    | Date32Type
    | TimestampType(unit: TimeUnit)
    | OtherType

  /** One column's statistics in one row group; every part may be missing. */
  datatype ColStats = ColStats(dtype: DataType, range: Option<(StatValue, StatValue)>, nullCount: Option<int>)

  datatype RowGroupStats = RowGroupStats(numRows: int, cols: map<int, ColStats>)

  /** `bloomProber.absent`: true only on a definite absence. */
  type Prober = (int, Literal) -> bool

  // ----- Literals in a column's domain -----

  function LiteralValue(l: Literal, dt: DataType): Option<StatValue> {
    match dt
    case BoolType => if l.LitBool? then Some(BoolVal(l.b)) else None
    case IntType(_) => if l.LitInt? then Some(IntVal(l.i)) else None
    case UintType(_) => if l.LitUint? then Some(UintVal(l.u)) else None
    case Float32Type => FloatLiteral(l)
    case Float64Type => FloatLiteral(l)
    case StringType(_) => if l.LitUtf8? then Some(BytesVal(l.text)) else None
    case BinaryType(_) => if l.LitBinary? then Some(BytesVal(l.bytes)) else None
    case FixedBinaryType => if l.LitBinary? then Some(BytesVal(l.bytes)) else None
    case Date32Type => if l.LitDate32? then Some(IntVal(l.days)) else None
    case TimestampType(unit) => if l.LitTimestamp? && l.unit == unit then Some(IntVal(l.ticks)) else None
    case OtherType => None
  }

  function FloatLiteral(l: Literal): Option<StatValue> {
    if l.LitFloat32? || l.LitFloat64? then Some(FloatVal(l.f)) else None
  }

  /** The literal as the range rules may use it: converted and not NaN. */
  function UsableLiteral(l: Literal, dt: DataType): Option<StatValue> {
    var v := LiteralValue(l, dt);
    if v.Some? && !IsNaN(v.value) then v else None
  }

  // ----- What a literal stands for -----

  /** What a value of a column denotes. */
  function ValueDenotes(v: StatValue, dt: DataType): Option<Denotation> {
    match (v, dt)
    case (BoolVal(b), BoolType) => Some(Truthy(b))
    case (IntVal(i), IntType(_)) => Some(Integer(i))
    case (IntVal(d), Date32Type) => Some(Day(d))
    case (IntVal(t), TimestampType(unit)) => Some(Instant(t * NanosPer(unit)))
    case (UintVal(u), UintType(_)) => Some(Integer(u))
    case (FloatVal(f), Float32Type) => Some(Floating(f))
    case (FloatVal(f), Float64Type) => Some(Floating(f))
    case (BytesVal(t), StringType(_)) => Some(Text(t))
    case (BytesVal(b), BinaryType(_)) => Some(Bytes(b))
    case (BytesVal(b), FixedBinaryType) => Some(Bytes(b))
    case _ => None
  }

  /** The literal is of the column's own kind: the signedness of integers and the unit of timestamps included. */
  predicate OfKind(l: Literal, dt: DataType) {
    match l
    case LitBool(_) => dt.BoolType?
    case LitInt(_, _) => dt.IntType?
    case LitUint(_, _) => dt.UintType?
    case LitFloat32(_) => dt.Float32Type? || dt.Float64Type?
    case LitFloat64(_) => dt.Float32Type? || dt.Float64Type?
    case LitUtf8(_) => dt.StringType?
    case LitBinary(_) => dt.BinaryType? || dt.FixedBinaryType?
    case LitDate32(_) => dt.Date32Type?
    case LitDate64(_) => false
    case LitTimestamp(_, unit, _) => dt == TimestampType(unit)
  }

  /** In a column of the type the literal stands for the value: it is of the kind, and both denote the same. */
  predicate StandsFor(l: Literal, dt: DataType, v: StatValue) {
    OfKind(l, dt) && ValueDenotes(v, dt) == Some(Denotes(l))
  }

  /** A literal converts exactly when it is of the column's kind, and to the one value it stands for there. */
  lemma LiteralValueExact(l: Literal, dt: DataType)
    ensures LiteralValue(l, dt).Some? <==> OfKind(l, dt)
    ensures LiteralValue(l, dt).Some? ==>
              var v := LiteralValue(l, dt).value; StandsFor(l, dt, v) && DomainOfType(dt) == Some(DomainOf(v))
    ensures forall v | StandsFor(l, dt, v) :: LiteralValue(l, dt) == Some(v)
  {
    forall v | StandsFor(l, dt, v) ensures LiteralValue(l, dt) == Some(v) {
      if l.LitTimestamp? {
        SameTicks(l.ticks, v.i, l.unit);
      }
    }
  }

  lemma SameTicks(a: int, b: int, unit: TimeUnit)
    requires a * NanosPer(unit) == b * NanosPer(unit)
    ensures a == b
  {
  }

  /** `usableRange`: both bounds present and neither NaN. */
  predicate UsableRange(cs: ColStats) {
    cs.range.Some? && !IsNaN(cs.range.value.0) && !IsNaN(cs.range.value.1)
  }

  predicate ProvablyAllNull(cs: ColStats, numRows: int) {
    cs.nullCount == Some(numRows)
  }

  /** The statistics talk about the column's own domain. */
  predicate WellTyped(cs: ColStats) {
    cs.range.Some? ==>
      && DomainOfType(cs.dtype) == Some(DomainOf(cs.range.value.0))
      && DomainOf(cs.range.value.0) == DomainOf(cs.range.value.1)
  }

  function DomainOfType(dt: DataType): Option<Domain> {
    match dt
    case BoolType => Some(DomainBool)
    case IntType(_) => Some(DomainInt)
    case UintType(_) => Some(DomainUint)
    case Float32Type => Some(DomainFloat)
    case Float64Type => Some(DomainFloat)
    case StringType(_) => Some(DomainBytes)
    case BinaryType(_) => Some(DomainBytes)
    case FixedBinaryType => Some(DomainBytes)
    case Date32Type => Some(DomainInt)
    case TimestampType(_) => Some(DomainInt)
    case OtherType => None
  }

  type GroupStats = st: RowGroupStats | forall i :: i in st.cols ==> WellTyped(st.cols[i])
    witness RowGroupStats(0, map[])

  // ----- Negation -----

  function NegateOp(op: CompareOp): CompareOp {
    match op
    case Eq => Neq
    case Neq => Eq
    case Lt => GtEq
    case LtEq => Gt
    case Gt => LtEq
    case GtEq => Lt
  }

  /** `negate`: one step of pushing a NOT towards the leaves. */
  function Negate(e: Expr): Expr {
    match e
    case Compare(c, op, l) => Compare(c, NegateOp(op), l)
    case IsNull(c, negated) => IsNull(c, !negated)
    case Between(c, negated, low, high) => Between(c, !negated, low, high)
    case InList(c, negated, list) => InList(c, !negated, list)
    case And(l, r) => Or(Not(l), Not(r))
    case Or(l, r) => And(Not(l), Not(r))
    case Not(x) => x
  }

  /** The termination measure: NOT doubles its operand, so that De Morgan still goes down. */
  function Weight(e: Expr): nat {
    match e
    case And(l, r) => Weight(l) + Weight(r) + 1
    case Or(l, r) => Weight(l) + Weight(r) + 1
    case Not(x) => 2 * Weight(x)
    case _ => 1
  }

  lemma {:induction false} NegateDescends(e: Expr)
    ensures 1 <= Weight(e) && Weight(Negate(e)) < Weight(Not(e))
  {
    match e
    case And(l, r) =>
      NegateDescends(l);
      NegateDescends(r);
    case Or(l, r) =>
      NegateDescends(l);
      NegateDescends(r);
    case Not(x) => NegateDescends(x);
    case _ =>
  }

  // ----- The evaluator -----

  function CanSkip(e: Expr, st: GroupStats, bloom: Option<Prober>): bool
    decreases Weight(e)
  {
    match e
    case And(l, r) => CanSkip(l, st, bloom) || CanSkip(r, st, bloom)
    case Or(l, r) => CanSkip(l, st, bloom) && CanSkip(r, st, bloom)
    case Not(x) =>
      NegateDescends(x);
      CanSkip(Negate(x), st, bloom)
    case Compare(c, op, l) => CanSkipCompare(c.index, op, l, st, bloom)
    case IsNull(c, negated) => CanSkipIsNull(c.index, negated, st)
    case Between(c, negated, low, high) => CanSkipBetween(c.index, negated, low, high, st)
    case InList(c, negated, list) => CanSkipInList(c.index, negated, list, st, bloom)
  }

  predicate RangeRefutes(op: CompareOp, lit: StatValue, min: StatValue, max: StatValue)
    requires DomainOf(lit) == DomainOf(min) == DomainOf(max)
  {
    match op
    case Eq => CmpVal(lit, min) < 0 || CmpVal(lit, max) > 0
    case Lt => CmpVal(min, lit) >= 0
    case LtEq => CmpVal(min, lit) > 0
    case Gt => CmpVal(max, lit) <= 0
    case GtEq => CmpVal(max, lit) < 0
    case Neq => CmpVal(min, max) == 0 && CmpVal(min, lit) == 0
  }

  predicate CanSkipCompare(c: int, op: CompareOp, l: Literal, st: GroupStats, bloom: Option<Prober>) {
    c in st.cols &&
    var cs := st.cols[c];
    || ProvablyAllNull(cs, st.numRows)
    || (UsableRange(cs) && UsableLiteral(l, cs.dtype).Some?
        && RangeRefutes(op, UsableLiteral(l, cs.dtype).value, cs.range.value.0, cs.range.value.1))
    || (op.Eq? && bloom.Some? && bloom.value(c, l))
  }

  predicate CanSkipIsNull(c: int, negated: bool, st: GroupStats) {
    && c in st.cols && st.cols[c].nullCount.Some?
    && st.cols[c].nullCount.value == (if negated then st.numRows else 0)
  }

  predicate CanSkipBetween(c: int, negated: bool, low: Literal, high: Literal, st: GroupStats) {
    c in st.cols &&
    var cs := st.cols[c];
    if ProvablyAllNull(cs, st.numRows) then true
    else
      var lo, hi := UsableLiteral(low, cs.dtype), UsableLiteral(high, cs.dtype);
      if lo.None? || hi.None? then false
      else if !negated && CmpVal(lo.value, hi.value) > 0 then true
      else if !UsableRange(cs) then false
      else
        var (min, max) := cs.range.value;
        if negated then CmpVal(min, lo.value) >= 0 && CmpVal(max, hi.value) <= 0
        else CmpVal(hi.value, min) < 0 || CmpVal(lo.value, max) > 0
  }

  predicate CanSkipInList(c: int, negated: bool, list: seq<Literal>, st: GroupStats, bloom: Option<Prober>) {
    c in st.cols &&
    var cs := st.cols[c];
    if ProvablyAllNull(cs, st.numRows) then true
    else if negated then
      && UsableRange(cs)
      && CmpVal(cs.range.value.0, cs.range.value.1) == 0
      && exists k :: 0 <= k < |list| && IsElement(list[k], cs)
    else forall k :: 0 <= k < |list| ==> InElementAbsent(c, list[k], cs, bloom)
  }

  predicate IsElement(l: Literal, cs: ColStats)
    requires WellTyped(cs) && UsableRange(cs)
  {
    var v := UsableLiteral(l, cs.dtype);
    v.Some? && CmpVal(v.value, cs.range.value.0) == 0
  }

  predicate InElementAbsent(c: int, l: Literal, cs: ColStats, bloom: Option<Prober>)
    requires WellTyped(cs)
  {
    || (UsableRange(cs) && UsableLiteral(l, cs.dtype).Some?
        && RangeRefutes(Eq, UsableLiteral(l, cs.dtype).value, cs.range.value.0, cs.range.value.1))
    || (bloom.Some? && bloom.value(c, l))
  }
}
