/** The bounded predicate AST of `datafusion/expr.go` and its meaning on a row. */
module Predicates {
  import opened Values

  datatype Width = W8 | W16 | W32 | W64

  datatype TimeUnit = Second | Millisecond | Microsecond | Nanosecond

  function SignedMax(w: Width): int {
    match w
    case W8 => 0x7F
    case W16 => 0x7FFF
    case W32 => 0x7FFF_FFFF
    case W64 => 0x7FFF_FFFF_FFFF_FFFF
  }

  predicate FitsSigned(w: Width, i: int) {
    -SignedMax(w) - 1 <= i <= SignedMax(w)
  }

  predicate FitsUnsigned(w: Width, u: int) {
    0 <= u <= 2 * SignedMax(w) + 1
  }

  datatype Literal =
    | LitBool(b: bool)
    | LitInt(width: Width, i: int)
    | LitUint(width: Width, u: int)
    | LitFloat32(f: Float)
    | LitFloat64(f: Float)
    | LitUtf8(text: string)
    | LitBinary(bytes: seq<Byte>)
    | LitDate32(days: int)
    | LitDate64(millis: int)
    | LitTimestamp(ticks: int, unit: TimeUnit, zone: string)

  /** The literal's number fits the Go type its `LiteralType` promises. */
  predicate FitsGoType(l: Literal) {
    match l
    case LitInt(w, i) => FitsSigned(w, i)
    case LitUint(w, u) => FitsUnsigned(w, u)
    case LitDate32(d) => FitsSigned(W32, d)
    case LitDate64(m) => FitsSigned(W64, m)
    case LitTimestamp(t, _, _) => FitsSigned(W64, t)
    case _ => true
  }

  // ----- What literals denote -----

  /** What a literal denotes, whatever type holds it; instants are in nanoseconds. */
  datatype Denotation =
    | Truthy(b: bool)
    | Integer(i: int)
    | Floating(f: Float)
    | Text(text: string)
    | Bytes(bytes: seq<char>)
    | Day(days: int)
    | Instant(nanos: int)

  function NanosPer(unit: TimeUnit): int {
    match unit
    case Second => 1_000_000_000
    case Millisecond => 1_000_000
    case Microsecond => 1_000
    case Nanosecond => 1
  }

  function Denotes(l: Literal): Denotation {
    match l
    case LitBool(b) => Truthy(b)
    case LitInt(_, i) => Integer(i)
    case LitUint(_, u) => Integer(u)
    case LitFloat32(f) => Floating(f)
    case LitFloat64(f) => Floating(f)
    case LitUtf8(t) => Text(t)
    case LitBinary(b) => Bytes(b)
    case LitDate32(d) => Day(d)
    case LitDate64(m) => Instant(m * 1_000_000)
    case LitTimestamp(t, unit, _) => Instant(t * NanosPer(unit))
  }

  datatype Column = Column(name: string, index: int)

  datatype CompareOp = Eq | Neq | Lt | LtEq | Gt | GtEq

  /** One AST for both sides of the wire; they differ in how a literal is held. */
  datatype Predicate<L> =
    | Compare(column: Column, op: CompareOp, literal: L)
    | IsNull(column: Column, negated: bool)
    | Between(column: Column, negated: bool, low: L, high: L)
    | InList(column: Column, negated: bool, list: seq<L>)
    | And(left: Predicate<L>, right: Predicate<L>)
    | Or(left: Predicate<L>, right: Predicate<L>)
    | Not(inner: Predicate<L>)

  type Expr = Predicate<Literal>

  // ----- Meaning -----

  /** How the engine compares a column's value with a literal (by sign), and what NULL IN () is for it. */
  datatype Engine = Engine(cmp: (int, StatValue, Literal) -> int, nullInEmpty: Truth)

  predicate Holds(op: CompareOp, sign: int) {
    match op
    case Eq => sign == 0
    case Neq => sign != 0
    case Lt => sign < 0
    case LtEq => sign <= 0
    case Gt => sign > 0
    case GtEq => sign >= 0
  }

  function EvalCompare(c: int, cell: Cell, op: CompareOp, l: Literal, engine: Engine): Truth {
    if cell.Null? then Unknown else Decided(Holds(op, engine.cmp(c, cell.v, l)))
  }

  function NegateIf(negated: bool, t: Truth): Truth {
    if negated then Not3(t) else t
  }

  function EvalIn(c: int, cell: Cell, list: seq<Literal>, engine: Engine): Truth {
    if cell.Null? then (if list == [] then engine.nullInEmpty else Unknown)
    else Decided(exists k :: 0 <= k < |list| && engine.cmp(c, cell.v, list[k]) == 0)
  }

  function Eval(e: Expr, row: Row, engine: Engine): Truth {
    match e
    case Compare(c, op, l) => EvalCompare(c.index, CellAt(row, c.index), op, l, engine)
    case IsNull(c, negated) => Decided(CellAt(row, c.index).Null? != negated)
    case Between(c, negated, low, high) =>
      NegateIf(negated, And3(EvalCompare(c.index, CellAt(row, c.index), GtEq, low, engine),
                             EvalCompare(c.index, CellAt(row, c.index), LtEq, high, engine)))
    case InList(c, negated, list) => NegateIf(negated, EvalIn(c.index, CellAt(row, c.index), list, engine))
    case And(l, r) => And3(Eval(l, row, engine), Eval(r, row, engine))
    case Or(l, r) => Or3(Eval(l, row, engine), Eval(r, row, engine))
    case Not(x) => Not3(Eval(x, row, engine))
  }

  /** No IN list in the predicate is empty. */
  predicate NoEmptyLists<L>(e: Predicate<L>) {
    match e
    case InList(_, _, list) => list != []
    case And(l, r) => NoEmptyLists(l) && NoEmptyLists(r)
    case Or(l, r) => NoEmptyLists(l) && NoEmptyLists(r)
    case Not(x) => NoEmptyLists(x)
    case _ => true
  }
}
