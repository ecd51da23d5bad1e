/** Pushed predicates as Iceberg row filters: `providers/iceberg/convert.go`. */
module IcebergConvert {
  import opened Wrappers
  import opened Values
  import opened Predicates

  const MAX64 := 0x7FFF_FFFF_FFFF_FFFF
  const MIN64 := -0x8000_0000_0000_0000

  /** Go's integer division: it truncates toward zero. */
  function Quotient(a: int, b: int): int
    requires b > 0
  {
    if a < 0 then -((-a) / b) else a / b
  }

  /** The Go types iceberg-go takes literals in. */
  datatype IcebergValue =
    | BoolLiteral(b: bool)
    | Int32Literal(i: int)
    | Int64Literal(i: int)
    | Float32Literal(f: Float)
    | Float64Literal(f: Float)
    | StringLiteral(text: string)
    | BinaryLiteral(bytes: seq<char>)
    | DateLiteral(days: int)
    | TimestampLiteral(micros: int)
    | TimestampNanoLiteral(nanos: int)

  datatype Kind =
    KBool | KInt32 | KInt64 | KFloat32 | KFloat64 | KString | KBinary | KDate | KTimestamp | KTimestampNano

  function KindOf(v: IcebergValue): Kind {
    match v
    case BoolLiteral(_) => KBool
    case Int32Literal(_) => KInt32
    case Int64Literal(_) => KInt64
    case Float32Literal(_) => KFloat32
    case Float64Literal(_) => KFloat64
    case StringLiteral(_) => KString
    case BinaryLiteral(_) => KBinary
    case DateLiteral(_) => KDate
    case TimestampLiteral(_) => KTimestamp
    case TimestampNanoLiteral(_) => KTimestampNano
  }

  /** The value fits the Go type. */
  predicate FitsKind(v: IcebergValue) {
    match v
    case Int32Literal(i) => FitsSigned(W32, i)
    case Int64Literal(i) => FitsSigned(W64, i)
    case DateLiteral(d) => FitsSigned(W32, d)
    case TimestampLiteral(m) => FitsSigned(W64, m)
    case TimestampNanoLiteral(n) => FitsSigned(W64, n)
    case _ => true
  }

  /** iceberg-go's expressions; columns go by name. */
  datatype RowFilter =
    | Comparison(op: CompareOp, ref: string, v: IcebergValue)
    | NullTest(ref: string, negated: bool)
    | Membership(ref: string, negated: bool, vals: seq<IcebergValue>)
    | BothOf(left: RowFilter, right: RowFilter)
    | EitherOf(left: RowFilter, right: RowFilter)
    | NoneOf(inner: RowFilter)

  // ----- Conversion -----

  function ScaleTimestamp(v: int, factor: int): Option<IcebergValue>
    requires factor > 0
  {
    if v > Quotient(MAX64, factor) || v < Quotient(MIN64, factor) then None else Some(TimestampLiteral(v * factor))
  }

  function ConvertLiteral(l: Literal): Option<IcebergValue> {
    match l
    case LitBool(b) => Some(BoolLiteral(b))
    case LitInt(W64, i) => Some(Int64Literal(i))
    case LitInt(_, i) => Some(Int32Literal(i))
    case LitUint(W64, u) => if u > MAX64 then None else Some(Int64Literal(u))
    case LitUint(_, u) => Some(Int64Literal(u))
    case LitFloat32(f) => Some(Float32Literal(f))
    case LitFloat64(f) => Some(Float64Literal(f))
    case LitUtf8(t) => Some(StringLiteral(t))
    case LitBinary(b) => Some(BinaryLiteral(b))
    case LitDate32(d) => Some(DateLiteral(d))
    case LitDate64(_) => None
    case LitTimestamp(t, Second, _) => ScaleTimestamp(t, 1_000_000)
    case LitTimestamp(t, Millisecond, _) => ScaleTimestamp(t, 1_000)
    case LitTimestamp(t, Microsecond, _) => Some(TimestampLiteral(t))
    case LitTimestamp(t, Nanosecond, _) => Some(TimestampNanoLiteral(t))
  }

  function ConvertBetween(c: Column, negated: bool, low: Literal, high: Literal): Option<RowFilter> {
    var lo, hi := ConvertLiteral(low), ConvertLiteral(high);
    if lo.None? || hi.None? then None
    else if negated then Some(EitherOf(Comparison(Lt, c.name, lo.value), Comparison(Gt, c.name, hi.value)))
    else Some(BothOf(Comparison(GtEq, c.name, lo.value), Comparison(LtEq, c.name, hi.value)))
  }

  /** The converted list, if every element converts, to values of one Go type. */
  function ConvertedList(list: seq<Literal>): Option<seq<IcebergValue>> {
    if (forall k | 0 <= k < |list| :: ConvertLiteral(list[k]).Some?) &&
       (forall k | 0 <= k < |list| :: KindOf(ConvertLiteral(list[k]).value) == KindOf(ConvertLiteral(list[0]).value))
    then Some(seq(|list|, k requires 0 <= k < |list| => ConvertLiteral(list[k]).value))
    else None
  }

  /** Fills the converted values, then checks them against the first one's type; an empty list is refused. */
  method ConvertInList(c: Column, negated: bool, list: seq<Literal>) returns (filter: Option<RowFilter>)
    ensures filter == ConvertInListSpec(c, negated, list)
  {
    if |list| == 0 {
      return None;
    }
    var vals: seq<IcebergValue> := [];
    for i := 0 to |list|
      invariant |vals| == i
      invariant forall k | 0 <= k < i :: ConvertLiteral(list[k]) == Some(vals[k])
    {
      var v := ConvertLiteral(list[i]);
      if v.None? {
        return None;
      }
      vals := vals + [v.value];
    }
    for i := 0 to |vals|
      invariant forall k | 0 <= k < i :: KindOf(vals[k]) == KindOf(vals[0])
    {
      if KindOf(vals[i]) != KindOf(vals[0]) {
        return None;
      }
    }
    assert vals == ConvertedList(list).value;
    filter := Some(Membership(c.name, negated, vals));
  }

  function ConvertInListSpec(c: Column, negated: bool, list: seq<Literal>): Option<RowFilter> {
    if list == [] || ConvertedList(list).None? then None
    else Some(Membership(c.name, negated, ConvertedList(list).value))
  }

  function ConvertExpr(e: Expr): Option<RowFilter> {
    match e
    case Compare(c, op, l) =>
      var v := ConvertLiteral(l);
      if v.None? then None else Some(Comparison(op, c.name, v.value))
    case IsNull(c, negated) => Some(NullTest(c.name, negated))
    case Between(c, negated, low, high) => ConvertBetween(c, negated, low, high)
    case InList(c, negated, list) => ConvertInListSpec(c, negated, list)
    case And(l, r) =>
      var a, b := ConvertExpr(l), ConvertExpr(r);
      if a.None? || b.None? then None else Some(BothOf(a.value, b.value))
    case Or(l, r) =>
      var a, b := ConvertExpr(l), ConvertExpr(r);
      if a.None? || b.None? then None else Some(EitherOf(a.value, b.value))
    case Not(x) =>
      var a := ConvertExpr(x);
      if a.None? then None else Some(NoneOf(a.value))
  }

  /** `iceberg.BindExpr` against the table schema succeeds or not. */
  type Binds = RowFilter -> bool

  predicate Kept(e: Expr, binds: Binds) {
    ConvertExpr(e).Some? && binds(ConvertExpr(e).value)
  }

  /** Conjoins what converts and binds, dropping the other conjuncts whole; None when nothing is left. */
  method ConvertFilters(filters: seq<Expr>, binds: Binds) returns (result: Option<RowFilter>)
    ensures result == Conjunction(filters, binds)
  {
    result := None;
    for i := 0 to |filters|
      invariant result == Conjunction(filters[..i], binds)
    {
      assert filters[..i + 1][..i] == filters[..i];
      var e := ConvertExpr(filters[i]);
      if e.None? {
        continue;
      }
      if !binds(e.value) {
        continue;
      }
      if result.None? {
        result := e;
      } else {
        result := Some(BothOf(result.value, e.value));
      }
    }
    assert filters[..|filters|] == filters;
  }

  function Conjunction(filters: seq<Expr>, binds: Binds): Option<RowFilter> {
    if filters == [] then None
    else
      var n := |filters| - 1;
      var before := Conjunction(filters[..n], binds);
      if !Kept(filters[n], binds) then before
      else if before.None? then ConvertExpr(filters[n])
      else Some(BothOf(before.value, ConvertExpr(filters[n]).value))
  }

  // ----- Meaning -----

  function IcebergDenotes(v: IcebergValue): Denotation {
    match v
    case BoolLiteral(b) => Truthy(b)
    case Int32Literal(i) => Integer(i)
    case Int64Literal(i) => Integer(i)
    case Float32Literal(f) => Floating(f)
    case Float64Literal(f) => Floating(f)
    case StringLiteral(t) => Text(t)
    case BinaryLiteral(b) => Bytes(b)
    case DateLiteral(d) => Day(d)
    case TimestampLiteral(m) => Instant(m * 1_000)
    case TimestampNanoLiteral(n) => Instant(n)
  }

  /** How iceberg-go decides, operator by operator, a column's value against what a literal denotes. */
  type Comparator = (int, StatValue, CompareOp, Denotation) -> bool

  /** Where a table keeps the column of a name. */
  type Resolver = string -> int

  function CompareWith(cell: Cell, op: CompareOp, c: int, v: IcebergValue, cmp: Comparator): Truth {
    if cell.Null? then Unknown else Decided(cmp(c, cell.v, op, IcebergDenotes(v)))
  }

  /** iceberg-go's row-level filtering, in three-valued logic. */
  function EvalFilter(f: RowFilter, row: Row, columns: Resolver, cmp: Comparator): Truth {
    match f
    case Comparison(op, ref, v) => CompareWith(CellAt(row, columns(ref)), op, columns(ref), v, cmp)
    case NullTest(ref, negated) => Decided(CellAt(row, columns(ref)).Null? != negated)
    case Membership(ref, negated, vals) =>
      NegateIf(negated, EvalMembership(CellAt(row, columns(ref)), columns(ref), vals, cmp))
    case BothOf(l, r) => And3(EvalFilter(l, row, columns, cmp), EvalFilter(r, row, columns, cmp))
    case EitherOf(l, r) => Or3(EvalFilter(l, row, columns, cmp), EvalFilter(r, row, columns, cmp))
    case NoneOf(x) => Not3(EvalFilter(x, row, columns, cmp))
  }

  function EvalMembership(cell: Cell, c: int, vals: seq<IcebergValue>, cmp: Comparator): Truth {
    if cell.Null? then Unknown
    else Decided(exists k :: 0 <= k < |vals| && cmp(c, cell.v, Eq, IcebergDenotes(vals[k])))
  }

  /** The predicate's columns are where the table has their names. */
  predicate Resolved(e: Expr, columns: Resolver) {
    match e
    case And(l, r) => Resolved(l, columns) && Resolved(r, columns)
    case Or(l, r) => Resolved(l, columns) && Resolved(r, columns)
    case Not(x) => Resolved(x, columns)
    case _ => columns(e.column.name) == e.column.index
  }

  // ----- Exact literals -----

  lemma MultiplyMonotone(a: int, b: int, factor: int)
    requires a <= b && factor > 0
    ensures a * factor <= b * factor
  {
    assert b * factor - a * factor == (b - a) * factor;
  }

  /** Staying below the quotient is staying below the dividend after scaling. */
  lemma AtMostQuotient(v: int, factor: int, limit: int)
    requires limit >= 0 && factor > 0
    ensures v <= limit / factor <==> v * factor <= limit
  {
    var q := limit / factor;
    assert limit == q * factor + limit % factor;
    if v <= q {
      MultiplyMonotone(v, q, factor);
    } else {
      MultiplyMonotone(q + 1, v, factor);
      assert (q + 1) * factor == q * factor + factor;
    }
  }

  /** A timestamp is accepted exactly when its microseconds fit in 64 bits, for both signs of the value. */
  lemma ScaleTimestampExact(v: int, factor: int)
    requires factor > 0
    ensures ScaleTimestamp(v, factor).Some? <==> MIN64 <= v * factor <= MAX64
  {
    AtMostQuotient(v, factor, MAX64);
    AtMostQuotient(-v, factor, -MIN64);
    assert (-v) * factor == -(v * factor);
  }

  /** The literals Iceberg can hold exactly. */
  predicate Representable(l: Literal) {
    match l
    case LitUint(_, u) => u <= MAX64
    case LitDate64(_) => false
    case LitTimestamp(t, Second, _) => MIN64 <= t * 1_000_000 <= MAX64
    case LitTimestamp(t, Millisecond, _) => MIN64 <= t * 1_000 <= MAX64
    case _ => true
  }

  /** A literal converts exactly when Iceberg can hold it, and then to the same value, within its Go type. */
  lemma ConvertLiteralExact(l: Literal)
    requires FitsGoType(l)
    ensures ConvertLiteral(l).Some? <==> Representable(l)
    ensures ConvertLiteral(l).Some? ==>
              IcebergDenotes(ConvertLiteral(l).value) == Denotes(l) && FitsKind(ConvertLiteral(l).value)
  {
    if l.LitTimestamp? {
      ScaleTimestampExact(l.ticks, 1_000_000);
      ScaleTimestampExact(l.ticks, 1_000);
    }
  }

  /** The Go type a literal converts to. */
  function TargetKind(l: Literal): Kind {
    match l
    case LitBool(_) => KBool
    case LitInt(w, _) => if w.W64? then KInt64 else KInt32
    case LitUint(_, _) => KInt64
    case LitFloat32(_) => KFloat32
    case LitFloat64(_) => KFloat64
    case LitUtf8(_) => KString
    case LitBinary(_) => KBinary
    case LitDate32(_) => KDate
    case LitDate64(_) => KTimestamp
    case LitTimestamp(_, unit, _) => if unit.Nanosecond? then KTimestampNano else KTimestamp
  }

  predicate Translatable(e: Expr) {
    match e
    case Compare(_, _, l) => Representable(l)
    case IsNull(_, _) => true
    case Between(_, _, low, high) => Representable(low) && Representable(high)
    case InList(_, _, list) =>
      list != [] && forall k | 0 <= k < |list| :: Representable(list[k]) && TargetKind(list[k]) == TargetKind(list[0])
    case And(l, r) => Translatable(l) && Translatable(r)
    case Or(l, r) => Translatable(l) && Translatable(r)
    case Not(x) => Translatable(x)
  }

  predicate LiteralsFit(e: Expr) {
    match e
    case Compare(_, _, l) => FitsGoType(l)
    case IsNull(_, _) => true
    case Between(_, _, low, high) => FitsGoType(low) && FitsGoType(high)
    case InList(_, _, list) => forall k | 0 <= k < |list| :: FitsGoType(list[k])
    case And(l, r) => LiteralsFit(l) && LiteralsFit(r)
    case Or(l, r) => LiteralsFit(l) && LiteralsFit(r)
    case Not(x) => LiteralsFit(x)
  }

  /** Only an unrepresentable literal or a list that is empty or of mixed types stops a conversion. */
  lemma {:induction false} ConvertsIffTranslatable(e: Expr)
    requires LiteralsFit(e)
    ensures ConvertExpr(e).Some? <==> Translatable(e)
  {
    match e
    case Compare(_, _, l) => ConvertLiteralExact(l);
    case IsNull(_, _) =>
    case Between(_, _, low, high) =>
      ConvertLiteralExact(low);
      ConvertLiteralExact(high);
    case InList(_, _, list) =>
      forall k | 0 <= k < |list|
        ensures ConvertLiteral(list[k]).Some? <==> Representable(list[k])
        ensures ConvertLiteral(list[k]).Some? ==> KindOf(ConvertLiteral(list[k]).value) == TargetKind(list[k])
      {
        ConvertLiteralExact(list[k]);
      }
    case And(l, r) =>
      ConvertsIffTranslatable(l);
      ConvertsIffTranslatable(r);
    case Or(l, r) =>
      ConvertsIffTranslatable(l);
      ConvertsIffTranslatable(r);
    case Not(x) => ConvertsIffTranslatable(x);
  }

  lemma ConvertLiteralKeepsValue(l: Literal)
    ensures ConvertLiteral(l).Some? ==> IcebergDenotes(ConvertLiteral(l).value) == Denotes(l)
  {
  }

  // ----- The translation keeps the meaning -----

  /** The engine and iceberg-go decide this operator alike for the row's value and the literal. */
  predicate ScanAgrees(c: int, op: CompareOp, l: Literal, row: Row, engine: Engine, cmp: Comparator) {
    CellAt(row, c).Val? ==>
      (cmp(c, CellAt(row, c).v, op, Denotes(l)) <==> Holds(op, engine.cmp(c, CellAt(row, c).v, l)))
  }

  /** They do so for every comparison that the converted predicate makes. */
  predicate ScanAgreesOn(e: Expr, row: Row, engine: Engine, cmp: Comparator) {
    match e
    case Compare(c, op, l) => ScanAgrees(c.index, op, l, row, engine, cmp)
    case IsNull(_, _) => true
    case Between(c, negated, low, high) =>
      && ScanAgrees(c.index, if negated then Lt else GtEq, low, row, engine, cmp)
      && ScanAgrees(c.index, if negated then Gt else LtEq, high, row, engine, cmp)
    case InList(c, _, list) => forall k | 0 <= k < |list| :: ScanAgrees(c.index, Eq, list[k], row, engine, cmp)
    case And(l, r) => ScanAgreesOn(l, row, engine, cmp) && ScanAgreesOn(r, row, engine, cmp)
    case Or(l, r) => ScanAgreesOn(l, row, engine, cmp) && ScanAgreesOn(r, row, engine, cmp)
    case Not(x) => ScanAgreesOn(x, row, engine, cmp)
  }

  lemma ListKeepsMeaning(c: Column, negated: bool, list: seq<Literal>, row: Row, columns: Resolver, cmp: Comparator,
                         engine: Engine)
    requires ConvertInListSpec(c, negated, list).Some? && columns(c.name) == c.index
    requires ScanAgreesOn(InList(c, negated, list), row, engine, cmp)
    ensures EvalFilter(ConvertInListSpec(c, negated, list).value, row, columns, cmp) ==
            Eval(InList(c, negated, list), row, engine)
  {
    var vals, cell := ConvertedList(list).value, CellAt(row, c.index);
    if cell.Val? {
      forall k | 0 <= k < |list|
        ensures cmp(c.index, cell.v, Eq, IcebergDenotes(vals[k])) <==> engine.cmp(c.index, cell.v, list[k]) == 0
      {
        ConvertLiteralKeepsValue(list[k]);
        assert ScanAgrees(c.index, Eq, list[k], row, engine, cmp);
      }
    }
  }

  /** Identical three-valued meaning at every node. */
  lemma {:induction false} ConvertKeepsMeaning(e: Expr, row: Row, columns: Resolver, cmp: Comparator, engine: Engine)
    requires ConvertExpr(e).Some? && Resolved(e, columns) && ScanAgreesOn(e, row, engine, cmp)
    ensures EvalFilter(ConvertExpr(e).value, row, columns, cmp) == Eval(e, row, engine)
  {
    match e
    case Compare(_, _, l) => ConvertLiteralKeepsValue(l);
    case IsNull(_, _) =>
    case Between(_, _, low, high) =>
      ConvertLiteralKeepsValue(low);
      ConvertLiteralKeepsValue(high);
    case InList(c, negated, list) => ListKeepsMeaning(c, negated, list, row, columns, cmp, engine);
    case And(l, r) =>
      ConvertKeepsMeaning(l, row, columns, cmp, engine);
      ConvertKeepsMeaning(r, row, columns, cmp, engine);
    case Or(l, r) =>
      ConvertKeepsMeaning(l, row, columns, cmp, engine);
      ConvertKeepsMeaning(r, row, columns, cmp, engine);
    case Not(x) => ConvertKeepsMeaning(x, row, columns, cmp, engine);
  }

  /** The conjunction accepts a row exactly when the translation of every kept conjunct does. */
  lemma {:induction false} ConjunctionHolds(filters: seq<Expr>, binds: Binds, row: Row, columns: Resolver,
                                            cmp: Comparator)
    ensures var result := Conjunction(filters, binds);
            (result.None? || EvalFilter(result.value, row, columns, cmp).True?) <==>
            forall k | 0 <= k < |filters| && Kept(filters[k], binds) ::
              EvalFilter(ConvertExpr(filters[k]).value, row, columns, cmp).True?
    ensures Conjunction(filters, binds).None? <==> forall k | 0 <= k < |filters| :: !Kept(filters[k], binds)
  {
    if filters != [] {
      ConjunctionHolds(filters[..|filters| - 1], binds, row, columns, cmp);
    }
  }

  /** The scan keeps a row exactly when every kept conjunct is true of it. */
  lemma ConjunctionIsKeptConjuncts(filters: seq<Expr>, binds: Binds, row: Row, columns: Resolver, cmp: Comparator,
                                   engine: Engine)
    requires forall k | 0 <= k < |filters| && Kept(filters[k], binds) ::
               Resolved(filters[k], columns) && ScanAgreesOn(filters[k], row, engine, cmp)
    ensures var result := Conjunction(filters, binds);
            (result.None? || EvalFilter(result.value, row, columns, cmp).True?) <==>
            forall k | 0 <= k < |filters| && Kept(filters[k], binds) :: Eval(filters[k], row, engine).True?
    ensures Conjunction(filters, binds).None? <==> forall k | 0 <= k < |filters| :: !Kept(filters[k], binds)
  {
    ConjunctionHolds(filters, binds, row, columns, cmp);
    forall k | 0 <= k < |filters| && Kept(filters[k], binds)
      ensures EvalFilter(ConvertExpr(filters[k]).value, row, columns, cmp) == Eval(filters[k], row, engine)
    {
      ConvertKeepsMeaning(filters[k], row, columns, cmp, engine);
    }
  }

  /** The converted filter never narrows: a row every pushed filter accepts is scanned. */
  lemma ConversionNeverNarrows(filters: seq<Expr>, binds: Binds, row: Row, columns: Resolver, cmp: Comparator,
                               engine: Engine)
    requires forall k | 0 <= k < |filters| && Kept(filters[k], binds) ::
               Resolved(filters[k], columns) && ScanAgreesOn(filters[k], row, engine, cmp)
    requires forall k | 0 <= k < |filters| :: Eval(filters[k], row, engine).True?
    ensures var result := Conjunction(filters, binds); result.None? || EvalFilter(result.value, row, columns, cmp).True?
  {
    ConjunctionIsKeptConjuncts(filters, binds, row, columns, cmp, engine);
  }
}
