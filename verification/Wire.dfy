/** The JSON wire format of pushed filters: written by `pushdown.rs`, read by `datafusion/expr.go`. */
module Wire {
  import opened Wrappers
  import opened Values
  import opened Predicates
  import opened Pushdown
  import Base64

  // ----- JSON documents -----

  datatype Json =
    | JNull
    | JBool(b: bool)
    | JInt(i: int)
    | JReal(f: Float)
    | JString(s: string)
    | JArray(items: seq<Json>)
    | JObject(members: Members)

  datatype Members = End | Member(name: string, value: Json, rest: Members)

  /** The value of a key; the last of several wins. */
  function Lookup(ms: Members, name: string): (v: Option<Json>)
    ensures v.Some? ==> v.value < ms
  {
    match ms
    case End => None
    case Member(n, value, rest) =>
      var later := Lookup(rest, name);
      if later.Some? then later else if n == name then Some(value) else None
  }

  // ----- Serialization -----

  function OpName(op: CompareOp): string {
    match op
    case Eq => "eq"
    case Neq => "neq"
    case Lt => "lt"
    case LtEq => "lteq"
    case Gt => "gt"
    case GtEq => "gteq"
  }

  function UnitName(unit: TimeUnit): string {
    match unit
    case Second => "s"
    case Millisecond => "ms"
    case Microsecond => "us"
    case Nanosecond => "ns"
  }

  function SignedName(w: Width): string {
    match w
    case W8 => "int8"
    case W16 => "int16"
    case W32 => "int32"
    case W64 => "int64"
  }

  function UnsignedName(w: Width): string {
    match w
    case W8 => "uint8"
    case W16 => "uint16"
    case W32 => "uint32"
    case W64 => "uint64"
  }

  /** JSON has no NaN and no infinities; serde writes null for them. */
  function FloatJson(f: Float): Json {
    if IsFinite(f) then JReal(f) else JNull
  }

  function TypedJson(tag: string, value: Json, rest: Members): Json {
    JObject(Member("type", JString(tag), Member("value", value, rest)))
  }

  function ZoneJson(tz: Option<string>): Members {
    if tz.Some? then Member("tz", JString(tz.value), End) else End
  }

  function LiteralJson(l: WireLiteral): Json {
    match l
    case WireBool(b) => TypedJson("bool", JBool(b), End)
    case WireInt(w, i) => TypedJson(SignedName(w), JInt(i), End)
    case WireUint(w, u) => TypedJson(UnsignedName(w), JInt(u), End)
    case WireFloat32(f) => TypedJson("float32", FloatJson(f), End)
    case WireFloat64(f) => TypedJson("float64", FloatJson(f), End)
    case WireUtf8(t) => TypedJson("utf8", JString(t), End)
    case WireBinary(s) => TypedJson("binary", JString(s), End)
    case WireDate32(d) => TypedJson("date32", JInt(d), End)
    case WireDate64(m) => TypedJson("date64", JInt(m), End)
    case WireTimestamp(t, unit, tz) =>
      TypedJson("timestamp", JInt(t),
                Member("unit", JString(UnitName(unit)), ZoneJson(tz)))
  }

  function LiteralsJson(ls: seq<WireLiteral>): (items: seq<Json>)
    ensures |items| == |ls| && forall k | 0 <= k < |ls| :: items[k] == LiteralJson(ls[k])
  {
    if ls == [] then [] else [LiteralJson(ls[0])] + LiteralsJson(ls[1..])
  }

  function ColumnJson(c: Column): Json {
    JObject(Member("name", JString(c.name), Member("index", JInt(c.index), End)))
  }

  function KindJson(kind: string, rest: Members): Json {
    JObject(Member("kind", JString(kind), rest))
  }

  function ToJson(p: PushExpr): Json {
    match p
    case Compare(c, op, l) =>
      KindJson("compare", Member("column", ColumnJson(c),
                                 Member("op", JString(OpName(op)), Member("literal", LiteralJson(l), End))))
    case IsNull(c, negated) =>
      KindJson("is_null", Member("column", ColumnJson(c), Member("negated", JBool(negated), End)))
    case Between(c, negated, low, high) =>
      KindJson("between", Member("column", ColumnJson(c), Member("negated", JBool(negated),
               Member("low", LiteralJson(low), Member("high", LiteralJson(high), End)))))
    case InList(c, negated, list) =>
      KindJson("in_list", Member("column", ColumnJson(c), Member("negated", JBool(negated),
               Member("list", JArray(LiteralsJson(list)), End))))
    case And(l, r) => KindJson("and", Member("left", ToJson(l), Member("right", ToJson(r), End)))
    case Or(l, r) => KindJson("or", Member("left", ToJson(l), Member("right", ToJson(r), End)))
    case Not(x) => KindJson("not", Member("expr", ToJson(x), End))
  }

  /** The recognized filters, in order. */
  function Recognized(filters: seq<EngineExpr>, schema: seq<string>): seq<PushExpr> {
    if filters == [] then []
    else
      var first := Classify(filters[0], schema);
      (if first.Some? then [first.value] else []) + Recognized(filters[1..], schema)
  }

  function Documents(ps: seq<PushExpr>): (items: seq<Json>)
    ensures |items| == |ps| && forall k | 0 <= k < |ps| :: items[k] == ToJson(ps[k])
  {
    if ps == [] then [] else [ToJson(ps[0])] + Documents(ps[1..])
  }

  /** `filters_to_json`: None when nothing is representable. */
  function FiltersToJson(filters: seq<EngineExpr>, schema: seq<string>): Option<Json> {
    var nodes := Recognized(filters, schema);
    if nodes == [] then None else Some(JArray(Documents(nodes)))
  }

  // ----- Decoding, as encoding/json fills Go values: null leaves the zero value -----

  function DecodeBool(j: Json): Result<bool> {
    match j
    case JBool(b) => Ok(b)
    case JNull => Ok(false)
    case _ => Err
  }

  function DecodeInt(j: Json, lo: int, hi: int): Result<int>
    requires lo <= 0 <= hi
  {
    match j
    case JInt(i) => if lo <= i <= hi then Ok(i) else Err
    case JNull => Ok(0)
    case _ => Err
  }

  function DecodeSigned(j: Json, w: Width): Result<int> {
    DecodeInt(j, -SignedMax(w) - 1, SignedMax(w))
  }

  function DecodeUnsigned(j: Json, w: Width): Result<int> {
    DecodeInt(j, 0, 2 * SignedMax(w) + 1)
  }

  function DecodeFloat(j: Json): Result<Float> {
    match j
    case JReal(f) => Ok(f)
    case JInt(i) => Ok(Fin(i as real))
    case JNull => Ok(Fin(0.0))
    case _ => Err
  }

  function DecodeString(j: Json): Result<string> {
    match j
    case JString(s) => Ok(s)
    case JNull => Ok("")
    case _ => Err
  }

  /** A string field of a struct; a missing key leaves it empty. */
  function StringField(ms: Members, name: string): Result<string> {
    var v := Lookup(ms, name);
    if v.None? then Ok("") else DecodeString(v.value)
  }

  function BoolField(ms: Members, name: string): Result<bool> {
    var v := Lookup(ms, name);
    if v.None? then Ok(false) else DecodeBool(v.value)
  }

  function DecodeUnit(s: string): Option<TimeUnit> {
    if s == "s" then Some(Second)
    else if s == "ms" then Some(Millisecond)
    else if s == "us" then Some(Microsecond)
    else if s == "ns" then Some(Nanosecond)
    else None
  }

  function DecodeOp(s: string): Option<CompareOp> {
    if s == "eq" then Some(Eq)
    else if s == "neq" then Some(Neq)
    else if s == "lt" then Some(Lt)
    else if s == "lteq" then Some(LtEq)
    else if s == "gt" then Some(Gt)
    else if s == "gteq" then Some(GtEq)
    else None
  }

  function SignedWidth(s: string): Option<Width> {
    if s == "int8" then Some(W8)
    else if s == "int16" then Some(W16)
    else if s == "int32" then Some(W32)
    else if s == "int64" then Some(W64)
    else None
  }

  function UnsignedWidth(s: string): Option<Width> {
    if s == "uint8" then Some(W8)
    else if s == "uint16" then Some(W16)
    else if s == "uint32" then Some(W32)
    else if s == "uint64" then Some(W64)
    else None
  }

  function MapOk<A, B>(r: Result<A>, f: A -> B): Result<B> {
    if r.Ok? then Ok(f(r.value)) else Err
  }

  /** `Literal.UnmarshalJSON`. */
  function DecodeLiteral(j: Json): Result<Literal> {
    if !j.JObject? then Err
    else
      var tag, unit, tz := StringField(j.members, "type"), StringField(j.members, "unit"), StringField(j.members, "tz");
      var v := Lookup(j.members, "value");
      if tag.Err? || unit.Err? || tz.Err? || v.None? then Err
      else DecodeTagged(tag.value, v.value, unit.value, tz.value)
  }

  function DecodeTagged(tag: string, v: Json, unit: string, tz: string): Result<Literal> {
    if tag == "bool" then MapOk(DecodeBool(v), b => LitBool(b))
    else if SignedWidth(tag).Some? then
      MapOk(DecodeSigned(v, SignedWidth(tag).value), i => LitInt(SignedWidth(tag).value, i))
    else if UnsignedWidth(tag).Some? then
      MapOk(DecodeUnsigned(v, UnsignedWidth(tag).value), u => LitUint(UnsignedWidth(tag).value, u))
    else if tag == "float32" then MapOk(DecodeFloat(v), f => LitFloat32(f))
    else if tag == "float64" then MapOk(DecodeFloat(v), f => LitFloat64(f))
    else if tag == "utf8" then MapOk(DecodeString(v), t => LitUtf8(t))
    else if tag == "binary" then
      var s := DecodeString(v);
      if s.Ok? && Base64.Decode(s.value).Some? then Ok(LitBinary(Base64.Decode(s.value).value)) else Err
    else if tag == "date32" then MapOk(DecodeSigned(v, W32), d => LitDate32(d))
    else if tag == "date64" then MapOk(DecodeSigned(v, W64), m => LitDate64(m))
    else if tag == "timestamp" then
      var t := DecodeSigned(v, W64);
      if t.Ok? && DecodeUnit(unit).Some? then Ok(LitTimestamp(t.value, DecodeUnit(unit).value, tz)) else Err
    else Err
  }

  function DecodeLiterals(items: seq<Json>): (r: Result<seq<Literal>>)
    ensures r.Ok? <==> forall k | 0 <= k < |items| :: DecodeLiteral(items[k]).Ok?
    ensures r.Ok? ==> |r.value| == |items| && forall k | 0 <= k < |items| :: r.value[k] == DecodeLiteral(items[k]).value
  {
    if items == [] then Ok([])
    else
      var first, rest := DecodeLiteral(items[0]), DecodeLiterals(items[1..]);
      if first.Ok? && rest.Ok? then Ok([first.value] + rest.value) else Err
  }

  function LiteralField(ms: Members, name: string): Result<Literal> {
    var v := Lookup(ms, name);
    if v.None? then Err else DecodeLiteral(v.value)
  }

  function ListField(ms: Members, name: string): Result<seq<Literal>> {
    var v := Lookup(ms, name);
    if v.None? || v.value.JNull? then Ok([])
    else if v.value.JArray? then DecodeLiterals(v.value.items)
    else Err
  }

  function ColumnField(ms: Members, name: string): Result<Column> {
    var v := Lookup(ms, name);
    if v.None? || v.value.JNull? then Ok(Column("", 0))
    else if v.value.JObject? then
      var name, index := StringField(v.value.members, "name"), Lookup(v.value.members, "index");
      var i := if index.None? then Ok(0) else DecodeSigned(index.value, W64);
      if name.Ok? && i.Ok? then Ok(Column(name.value, i.value)) else Err
    else Err
  }

  function DecodeExpr(j: Json): Result<Expr> {
    if !j.JObject? then Err
    else
      var ms := j.members;
      var kind := StringField(ms, "kind");
      var column, negated := ColumnField(ms, "column"), BoolField(ms, "negated");
      if kind.Err? then Err
      else if kind.value == "compare" then
        var op, l := StringField(ms, "op"), LiteralField(ms, "literal");
        if column.Ok? && op.Ok? && l.Ok? && DecodeOp(op.value).Some? then
          Ok(Compare(column.value, DecodeOp(op.value).value, l.value))
        else Err
      else if kind.value == "is_null" then
        if column.Ok? && negated.Ok? then Ok(IsNull(column.value, negated.value)) else Err
      else if kind.value == "between" then
        var low, high := LiteralField(ms, "low"), LiteralField(ms, "high");
        if column.Ok? && negated.Ok? && low.Ok? && high.Ok? then
          Ok(Between(column.value, negated.value, low.value, high.value))
        else Err
      else if kind.value == "in_list" then
        var list := ListField(ms, "list");
        if column.Ok? && negated.Ok? && list.Ok? then Ok(InList(column.value, negated.value, list.value)) else Err
      else if kind.value == "and" || kind.value == "or" then
        var left, right := Lookup(ms, "left"), Lookup(ms, "right");
        if left.None? || right.None? then Err
        else
          var l, r := DecodeExpr(left.value), DecodeExpr(right.value);
          if l.Err? || r.Err? then Err
          else Ok(if kind.value == "and" then And(l.value, r.value) else Or(l.value, r.value))
      else if kind.value == "not" then
        var inner := Lookup(ms, "expr");
        if inner.None? then Err else MapOk(DecodeExpr(inner.value), x => Not(x))
      else Err
  }

  function DecodeAll(items: seq<Json>): (r: Result<seq<Expr>>)
    ensures r.Ok? <==> forall k | 0 <= k < |items| :: DecodeExpr(items[k]).Ok?
    ensures r.Ok? ==> |r.value| == |items| && forall k | 0 <= k < |items| :: r.value[k] == DecodeExpr(items[k]).value
  {
    if items == [] then Ok([])
    else
      var first, rest := DecodeExpr(items[0]), DecodeAll(items[1..]);
      if first.Ok? && rest.Ok? then Ok([first.value] + rest.value) else Err
  }

  function Decoded(doc: Json): Result<seq<Expr>> {
    match doc
    case JArray(items) => DecodeAll(items)
    case JNull => Ok([])
    case _ => Err
  }

  /** `decodeFilters`: the first undecodable filter fails the document. */
  method DecodeFilters(doc: Json) returns (exprs: Result<seq<Expr>>)
    ensures doc.JNull? ==> exprs == Ok([])
    ensures !doc.JNull? && !doc.JArray? ==> exprs.Err?
    ensures doc.JArray? ==> (exprs.Ok? <==> forall k | 0 <= k < |doc.items| :: DecodeExpr(doc.items[k]).Ok?)
    ensures doc.JArray? && exprs.Ok? ==>
              |exprs.value| == |doc.items| && forall k | 0 <= k < |doc.items| ::
                DecodeExpr(doc.items[k]) == Ok(exprs.value[k])
    ensures exprs == Decoded(doc)
  {
    if doc.JNull? {
      return Ok([]);
    }
    if !doc.JArray? {
      return Err;
    }
    var out: seq<Expr> := [];
    for i := 0 to |doc.items|
      invariant |out| == i
      invariant forall k | 0 <= k < i :: DecodeExpr(doc.items[k]) == Ok(out[k])
    {
      var e := DecodeExpr(doc.items[i]);
      if e.Err? {
        return Err;
      }
      out := out + [e.value];
    }
    assert out == DecodeAll(doc.items).value;
    exprs := Ok(out);
  }

  // ----- What arrives -----

  /** A float on the other side: JSON writes NaN and the infinities as null, and null reads as zero. */
  function Arrives(f: Float): Float {
    if IsFinite(f) then f else Fin(0.0)
  }

  function ArrivingLiteral(l: Literal): Literal {
    match l
    case LitFloat32(f) => LitFloat32(Arrives(f))
    case LitFloat64(f) => LitFloat64(Arrives(f))
    case _ => l
  }

  function ArrivingLiterals(ls: seq<Literal>): (r: seq<Literal>)
    ensures |r| == |ls| && forall k | 0 <= k < |r| :: r[k] == ArrivingLiteral(ls[k])
  {
    if ls == [] then [] else [ArrivingLiteral(ls[0])] + ArrivingLiterals(ls[1..])
  }

  /** A predicate as the provider gets it. */
  function Arriving(e: Expr): Expr {
    match e
    case Compare(c, op, l) => Compare(c, op, ArrivingLiteral(l))
    case IsNull(c, negated) => IsNull(c, negated)
    case Between(c, negated, low, high) => Between(c, negated, ArrivingLiteral(low), ArrivingLiteral(high))
    case InList(c, negated, list) => InList(c, negated, ArrivingLiterals(list))
    case And(l, r) => And(Arriving(l), Arriving(r))
    case Or(l, r) => Or(Arriving(l), Arriving(r))
    case Not(x) => Not(Arriving(x))
  }

  // ----- Round trip -----

  /** What Rust's types and the recognizer guarantee of a wire literal. */
  predicate WellTypedLiteral(l: WireLiteral) {
    match l
    case WireBinary(s) => Base64.Decode(s).Some?
    case _ => FitsGoType(GoLiteral(l))
  }

  predicate FiniteLiteral(l: WireLiteral) {
    match l
    case WireFloat32(f) => IsFinite(f)
    case WireFloat64(f) => IsFinite(f)
    case _ => true
  }

  predicate EveryLiteral<L>(p: Predicate<L>, holds: L -> bool) {
    match p
    case Compare(_, _, l) => holds(l)
    case IsNull(_, _) => true
    case Between(_, _, low, high) => holds(low) && holds(high)
    case InList(_, _, list) => forall k | 0 <= k < |list| :: holds(list[k])
    case And(l, r) => EveryLiteral(l, holds) && EveryLiteral(r, holds)
    case Or(l, r) => EveryLiteral(l, holds) && EveryLiteral(r, holds)
    case Not(x) => EveryLiteral(x, holds)
  }

  predicate ColumnsFit<L>(p: Predicate<L>) {
    match p
    case And(l, r) => ColumnsFit(l) && ColumnsFit(r)
    case Or(l, r) => ColumnsFit(l) && ColumnsFit(r)
    case Not(x) => ColumnsFit(x)
    case _ => FitsSigned(W64, p.column.index)
  }

  /** A predicate as the recognizer makes them, with columns a 64-bit index can name. */
  predicate WellTypedPredicate(p: PushExpr) {
    EveryLiteral(p, WellTypedLiteral) && ColumnsFit(p)
  }

  predicate FinitePredicate(p: PushExpr) {
    EveryLiteral(p, FiniteLiteral)
  }

  lemma TypedFields(tag: string, v: Json, rest: Members)
    requires Lookup(rest, "type").None? && Lookup(rest, "value").None?
    ensures var ms := TypedJson(tag, v, rest).members;
            && Lookup(ms, "type") == Some(JString(tag)) && Lookup(ms, "value") == Some(v)
            && Lookup(ms, "unit") == Lookup(rest, "unit") && Lookup(ms, "tz") == Lookup(rest, "tz")
  {
    var inner := Member("value", v, rest);
    assert Lookup(inner, "type").None? && Lookup(inner, "value") == Some(v);
    assert Lookup(inner, "unit") == Lookup(rest, "unit") && Lookup(inner, "tz") == Lookup(rest, "tz");
  }

  lemma IntegerTags(w: Width)
    ensures SignedWidth(SignedName(w)) == Some(w) && SignedName(w) != "bool"
    ensures UnsignedWidth(UnsignedName(w)) == Some(w) && SignedWidth(UnsignedName(w)).None? && UnsignedName(w) != "bool"
  {
  }

  lemma OtherTags(tag: string)
    requires tag in {"bool", "float32", "float64", "utf8", "binary", "date32", "date64", "timestamp"}
    ensures SignedWidth(tag).None? && UnsignedWidth(tag).None?
  {
  }

  lemma ZoneFields(tz: Option<string>, unit: string)
    ensures var rest := Member("unit", JString(unit), ZoneJson(tz));
            && Lookup(rest, "type").None? && Lookup(rest, "value").None?
            && Lookup(rest, "unit") == Some(JString(unit)) && StringField(rest, "tz") == Ok(ZoneName(tz))
  {
    var keys := {"type", "value", "unit"};
    if tz.Some? {
      Adds("tz", JString(tz.value), End, keys);
    }
    assert forall k | k in keys :: Lookup(ZoneJson(tz), k) == Lookup(End, k) == None;
    Adds("unit", JString(unit), ZoneJson(tz), {"type", "value", "tz"});
  }

  /** The members of a literal's document. */
  lemma LiteralFields(l: WireLiteral)
    ensures var ms := LiteralJson(l).members;
            && Lookup(ms, "type") == Some(ms.value) && ms.value.JString? && Lookup(ms, "value") == Some(ms.rest.value)
            && StringField(ms, "unit") == Ok(if l.WireTimestamp? then UnitName(l.unit) else "")
            && StringField(ms, "tz") == Ok(if l.WireTimestamp? then ZoneName(l.tz) else "")
  {
    if l.WireTimestamp? {
      ZoneFields(l.tz, UnitName(l.unit));
      TypedFields("timestamp", JInt(l.ticks), Member("unit", JString(UnitName(l.unit)), ZoneJson(l.tz)));
    } else {
      TypedFields(LiteralJson(l).members.value.s, LiteralJson(l).members.rest.value, End);
    }
  }

  lemma {:induction false} TaggedArrives(l: WireLiteral)
    requires WellTypedLiteral(l)
    ensures var ms := LiteralJson(l).members;
            var unit := if l.WireTimestamp? then UnitName(l.unit) else "";
            var tz := if l.WireTimestamp? then ZoneName(l.tz) else "";
            DecodeTagged(ms.value.s, ms.rest.value, unit, tz) == Ok(ArrivingLiteral(GoLiteral(l)))
  {
    if l.WireInt? || l.WireUint? {
      IntegerTags(l.width);
    } else if l.WireFloat32? || l.WireFloat64? {
      OtherTags(if l.WireFloat32? then "float32" else "float64");
      assert DecodeFloat(FloatJson(l.f)) == Ok(Arrives(l.f));
    } else {
      OtherTags(LiteralJson(l).members.value.s);
    }
  }

  lemma LiteralArrives(l: WireLiteral)
    requires WellTypedLiteral(l)
    ensures DecodeLiteral(LiteralJson(l)) == Ok(ArrivingLiteral(GoLiteral(l)))
  {
    LiteralFields(l);
    TaggedArrives(l);
  }

  /** Every literal decodes, and to itself exactly when it is not a NaN or an infinity. */
  lemma LiteralRoundTrip(l: WireLiteral)
    requires WellTypedLiteral(l)
    ensures DecodeLiteral(LiteralJson(l)).Ok?
    ensures DecodeLiteral(LiteralJson(l)) == Ok(GoLiteral(l)) <==> FiniteLiteral(l)
  {
    LiteralArrives(l);
  }

  /** Adding a member leaves the other keys alone. */
  lemma Adds(n: string, v: Json, rest: Members, others: set<string>)
    requires Lookup(rest, n).None? && n !in others
    ensures Lookup(Member(n, v, rest), n) == Some(v)
    ensures forall k | k in others :: Lookup(Member(n, v, rest), k) == Lookup(rest, k)
  {
  }

  const KEYS := {"kind", "column", "op", "literal", "negated", "low", "high", "list", "left", "right", "expr"}

  lemma CompareFields(c: Column, op: CompareOp, l: WireLiteral)
    ensures var ms := ToJson(Compare(c, op, l)).members;
            && Lookup(ms, "kind") == Some(JString("compare")) && Lookup(ms, "column") == Some(ColumnJson(c))
            && Lookup(ms, "op") == Some(JString(OpName(op))) && Lookup(ms, "literal") == Some(LiteralJson(l))
  {
    var m1 := Member("literal", LiteralJson(l), End);
    var m2 := Member("op", JString(OpName(op)), m1);
    var m3 := Member("column", ColumnJson(c), m2);
    Adds("literal", LiteralJson(l), End, KEYS - {"literal"});
    Adds("op", JString(OpName(op)), m1, KEYS - {"op"});
    Adds("column", ColumnJson(c), m2, KEYS - {"column"});
    Adds("kind", JString("compare"), m3, KEYS - {"kind"});
  }

  lemma IsNullFields(c: Column, negated: bool)
    ensures var ms := ToJson(IsNull(c, negated)).members;
            && Lookup(ms, "kind") == Some(JString("is_null")) && Lookup(ms, "column") == Some(ColumnJson(c))
            && Lookup(ms, "negated") == Some(JBool(negated))
  {
    var m1 := Member("negated", JBool(negated), End);
    var m2 := Member("column", ColumnJson(c), m1);
    Adds("negated", JBool(negated), End, KEYS - {"negated"});
    Adds("column", ColumnJson(c), m1, KEYS - {"column"});
    Adds("kind", JString("is_null"), m2, KEYS - {"kind"});
  }

  lemma BetweenFields(c: Column, negated: bool, low: WireLiteral, high: WireLiteral)
    ensures var ms := ToJson(Between(c, negated, low, high)).members;
            && Lookup(ms, "kind") == Some(JString("between")) && Lookup(ms, "column") == Some(ColumnJson(c))
            && Lookup(ms, "negated") == Some(JBool(negated))
            && Lookup(ms, "low") == Some(LiteralJson(low)) && Lookup(ms, "high") == Some(LiteralJson(high))
  {
    var m1 := Member("high", LiteralJson(high), End);
    var m2 := Member("low", LiteralJson(low), m1);
    var m3 := Member("negated", JBool(negated), m2);
    var m4 := Member("column", ColumnJson(c), m3);
    Adds("high", LiteralJson(high), End, KEYS - {"high"});
    Adds("low", LiteralJson(low), m1, KEYS - {"low"});
    Adds("negated", JBool(negated), m2, KEYS - {"negated"});
    Adds("column", ColumnJson(c), m3, KEYS - {"column"});
    Adds("kind", JString("between"), m4, KEYS - {"kind"});
  }

  lemma InListFields(c: Column, negated: bool, list: seq<WireLiteral>)
    ensures var ms := ToJson(InList(c, negated, list)).members;
            && Lookup(ms, "kind") == Some(JString("in_list")) && Lookup(ms, "column") == Some(ColumnJson(c))
            && Lookup(ms, "negated") == Some(JBool(negated)) && Lookup(ms, "list") == Some(JArray(LiteralsJson(list)))
  {
    var m1 := Member("list", JArray(LiteralsJson(list)), End);
    var m2 := Member("negated", JBool(negated), m1);
    var m3 := Member("column", ColumnJson(c), m2);
    Adds("list", JArray(LiteralsJson(list)), End, KEYS - {"list"});
    Adds("negated", JBool(negated), m1, KEYS - {"negated"});
    Adds("column", ColumnJson(c), m2, KEYS - {"column"});
    Adds("kind", JString("in_list"), m3, KEYS - {"kind"});
  }

  lemma TwoSidedFields(kind: string, l: PushExpr, r: PushExpr)
    ensures var ms := KindJson(kind, Member("left", ToJson(l), Member("right", ToJson(r), End))).members;
            && Lookup(ms, "kind") == Some(JString(kind))
            && Lookup(ms, "left") == Some(ToJson(l)) && Lookup(ms, "right") == Some(ToJson(r))
  {
    var m1 := Member("right", ToJson(r), End);
    var m2 := Member("left", ToJson(l), m1);
    Adds("right", ToJson(r), End, KEYS - {"right"});
    Adds("left", ToJson(l), m1, KEYS - {"left"});
    Adds("kind", JString(kind), m2, KEYS - {"kind"});
  }

  lemma NotFields(x: PushExpr)
    ensures var ms := ToJson(Not(x)).members;
            Lookup(ms, "kind") == Some(JString("not")) && Lookup(ms, "expr") == Some(ToJson(x))
  {
    Adds("expr", ToJson(x), End, KEYS - {"expr"});
    Adds("kind", JString("not"), Member("expr", ToJson(x), End), KEYS - {"kind"});
  }

  lemma ColumnRoundTrip(c: Column, ms: Members)
    requires FitsSigned(W64, c.index) && Lookup(ms, "column") == Some(ColumnJson(c))
    ensures ColumnField(ms, "column") == Ok(c)
  {
    var inner := ColumnJson(c).members;
    assert Lookup(inner.rest, "index") == Some(JInt(c.index)) && Lookup(inner.rest, "name").None?;
    assert Lookup(inner, "name") == Some(JString(c.name)) && Lookup(inner, "index") == Some(JInt(c.index));
  }

  lemma ListArrives(list: seq<WireLiteral>)
    requires forall k | 0 <= k < |list| :: WellTypedLiteral(list[k])
    ensures DecodeLiterals(LiteralsJson(list)) == Ok(ArrivingLiterals(GoLiterals(list)))
  {
    var items := LiteralsJson(list);
    forall k | 0 <= k < |list| ensures DecodeLiteral(items[k]) == Ok(ArrivingLiterals(GoLiterals(list))[k]) {
      LiteralArrives(list[k]);
    }
    assert DecodeLiterals(items).value == ArrivingLiterals(GoLiterals(list));
  }

  lemma CompareDecodes(ms: Members, c: Column, op: CompareOp)
    requires Lookup(ms, "kind") == Some(JString("compare")) && ColumnField(ms, "column") == Ok(c)
    requires Lookup(ms, "op") == Some(JString(OpName(op)))
    ensures DecodeExpr(JObject(ms)) == MapOk(LiteralField(ms, "literal"), l => Compare(c, op, l))
  {
    assert DecodeOp(OpName(op)) == Some(op);
  }

  lemma IsNullDecodes(ms: Members, c: Column, negated: bool)
    requires Lookup(ms, "kind") == Some(JString("is_null")) && ColumnField(ms, "column") == Ok(c)
    requires Lookup(ms, "negated") == Some(JBool(negated))
    ensures DecodeExpr(JObject(ms)) == Ok(IsNull(c, negated))
  {
  }

  lemma BetweenDecodes(ms: Members, c: Column, negated: bool)
    requires Lookup(ms, "kind") == Some(JString("between")) && ColumnField(ms, "column") == Ok(c)
    requires Lookup(ms, "negated") == Some(JBool(negated))
    requires LiteralField(ms, "low").Ok? && LiteralField(ms, "high").Ok?
    ensures DecodeExpr(JObject(ms)) ==
            Ok(Between(c, negated, LiteralField(ms, "low").value, LiteralField(ms, "high").value))
  {
  }

  lemma InListDecodes(ms: Members, c: Column, negated: bool)
    requires Lookup(ms, "kind") == Some(JString("in_list")) && ColumnField(ms, "column") == Ok(c)
    requires Lookup(ms, "negated") == Some(JBool(negated)) && ListField(ms, "list").Ok?
    ensures DecodeExpr(JObject(ms)) == Ok(InList(c, negated, ListField(ms, "list").value))
  {
  }

  lemma TwoSidedDecodes(ms: Members, conjunction: bool, l: Json, r: Json)
    requires Lookup(ms, "kind") == Some(JString(if conjunction then "and" else "or"))
    requires Lookup(ms, "left") == Some(l) && Lookup(ms, "right") == Some(r)
    requires DecodeExpr(l).Ok? && DecodeExpr(r).Ok?
    ensures DecodeExpr(JObject(ms)) ==
            Ok(if conjunction then And(DecodeExpr(l).value, DecodeExpr(r).value)
               else Or(DecodeExpr(l).value, DecodeExpr(r).value))
  {
  }

  lemma NotDecodes(ms: Members, x: Json)
    requires Lookup(ms, "kind") == Some(JString("not")) && Lookup(ms, "expr") == Some(x) && DecodeExpr(x).Ok?
    ensures DecodeExpr(JObject(ms)) == Ok(Not(DecodeExpr(x).value))
  {
  }

  /** A predicate of any depth decodes, to what it reads with every NaN and infinity replaced by zero. */
  lemma {:induction false} PredicateArrives(p: PushExpr)
    requires WellTypedPredicate(p)
    ensures DecodeExpr(ToJson(p)) == Ok(Arriving(GoExpr(p)))
  {
    match p
    case Compare(c, op, l) => CompareArrives(c, op, l);
    case IsNull(c, negated) => IsNullArrives(c, negated);
    case Between(c, negated, low, high) => BetweenArrives(c, negated, low, high);
    case InList(c, negated, list) => InListArrives(c, negated, list);
    case And(l, r) =>
      PredicateArrives(l);
      PredicateArrives(r);
      TwoSidedArrives(l, r, true, Arriving(GoExpr(l)), Arriving(GoExpr(r)));
    case Or(l, r) =>
      PredicateArrives(l);
      PredicateArrives(r);
      TwoSidedArrives(l, r, false, Arriving(GoExpr(l)), Arriving(GoExpr(r)));
    case Not(x) =>
      PredicateArrives(x);
      NotFields(x);
      NotDecodes(ToJson(p).members, ToJson(x));
  }

  lemma CompareArrives(c: Column, op: CompareOp, l: WireLiteral)
    requires WellTypedLiteral(l) && FitsSigned(W64, c.index)
    ensures DecodeExpr(ToJson(Compare(c, op, l))) == Ok(Compare(c, op, ArrivingLiteral(GoLiteral(l))))
  {
    var ms := ToJson(Compare(c, op, l)).members;
    CompareFields(c, op, l);
    ColumnRoundTrip(c, ms);
    CompareDecodes(ms, c, op);
    LiteralArrives(l);
  }

  lemma IsNullArrives(c: Column, negated: bool)
    requires FitsSigned(W64, c.index)
    ensures DecodeExpr(ToJson(IsNull(c, negated))) == Ok(IsNull(c, negated))
  {
    var ms := ToJson(IsNull(c, negated)).members;
    IsNullFields(c, negated);
    ColumnRoundTrip(c, ms);
    IsNullDecodes(ms, c, negated);
  }

  lemma BetweenArrives(c: Column, negated: bool, low: WireLiteral, high: WireLiteral)
    requires WellTypedLiteral(low) && WellTypedLiteral(high) && FitsSigned(W64, c.index)
    ensures DecodeExpr(ToJson(Between(c, negated, low, high))) ==
            Ok(Between(c, negated, ArrivingLiteral(GoLiteral(low)), ArrivingLiteral(GoLiteral(high))))
  {
    var ms := ToJson(Between(c, negated, low, high)).members;
    BetweenFields(c, negated, low, high);
    ColumnRoundTrip(c, ms);
    LiteralArrives(low);
    LiteralArrives(high);
    BetweenDecodes(ms, c, negated);
  }

  lemma InListArrives(c: Column, negated: bool, list: seq<WireLiteral>)
    requires (forall k | 0 <= k < |list| :: WellTypedLiteral(list[k])) && FitsSigned(W64, c.index)
    ensures DecodeExpr(ToJson(InList(c, negated, list))) == Ok(InList(c, negated, ArrivingLiterals(GoLiterals(list))))
  {
    var ms := ToJson(InList(c, negated, list)).members;
    InListFields(c, negated, list);
    ColumnRoundTrip(c, ms);
    ListArrives(list);
    InListDecodes(ms, c, negated);
  }

  lemma TwoSidedArrives(l: PushExpr, r: PushExpr, conjunction: bool, a: Expr, b: Expr)
    requires DecodeExpr(ToJson(l)) == Ok(a) && DecodeExpr(ToJson(r)) == Ok(b)
    ensures var kind := if conjunction then "and" else "or";
            DecodeExpr(KindJson(kind, Member("left", ToJson(l), Member("right", ToJson(r), End)))) ==
            Ok(if conjunction then And(a, b) else Or(a, b))
  {
    var kind := if conjunction then "and" else "or";
    TwoSidedFields(kind, l, r);
    TwoSidedDecodes(KindJson(kind, Member("left", ToJson(l), Member("right", ToJson(r), End))).members, conjunction,
                    ToJson(l), ToJson(r));
  }

  lemma {:induction false} ListUnchangedIffFinite(list: seq<WireLiteral>)
    ensures ArrivingLiterals(GoLiterals(list)) == GoLiterals(list) <==>
            forall k | 0 <= k < |list| :: FiniteLiteral(list[k])
  {
    var ls := GoLiterals(list);
    forall k | 0 <= k < |ls| ensures ArrivingLiterals(ls)[k] == ls[k] <==> FiniteLiteral(list[k]) {
      assert ls[k] == GoLiteral(list[k]);
    }
  }

  lemma {:induction false} ArrivesUnchangedIffFinite(p: PushExpr)
    ensures Arriving(GoExpr(p)) == GoExpr(p) <==> FinitePredicate(p)
  {
    match p
    case InList(_, _, list) => ListUnchangedIffFinite(list);
    case And(l, r) =>
      ArrivesUnchangedIffFinite(l);
      ArrivesUnchangedIffFinite(r);
    case Or(l, r) =>
      ArrivesUnchangedIffFinite(l);
      ArrivesUnchangedIffFinite(r);
    case Not(x) => ArrivesUnchangedIffFinite(x);
    case _ =>
  }

  /** A predicate of any depth decodes, and to exactly itself if and only if all its floats are finite. */
  lemma PredicateRoundTrip(p: PushExpr)
    requires WellTypedPredicate(p)
    ensures DecodeExpr(ToJson(p)).Ok?
    ensures DecodeExpr(ToJson(p)) == Ok(GoExpr(p)) <==> FinitePredicate(p)
  {
    PredicateArrives(p);
    ArrivesUnchangedIffFinite(p);
  }

  function GoExprs(ps: seq<PushExpr>): (es: seq<Expr>)
    ensures |es| == |ps| && forall k | 0 <= k < |ps| :: es[k] == GoExpr(ps[k])
  {
    if ps == [] then [] else [GoExpr(ps[0])] + GoExprs(ps[1..])
  }

  function ArrivingExprs(es: seq<Expr>): (r: seq<Expr>)
    ensures |r| == |es| && forall k | 0 <= k < |r| :: r[k] == Arriving(es[k])
  {
    if es == [] then [] else [Arriving(es[0])] + ArrivingExprs(es[1..])
  }

  /** The filters of a document decode one by one. */
  lemma DocumentArrives(ps: seq<PushExpr>)
    requires forall k | 0 <= k < |ps| :: WellTypedPredicate(ps[k])
    ensures DecodeAll(Documents(ps)) == Ok(ArrivingExprs(GoExprs(ps)))
  {
    var items := Documents(ps);
    forall k | 0 <= k < |ps| ensures DecodeExpr(items[k]) == Ok(ArrivingExprs(GoExprs(ps))[k]) {
      PredicateArrives(ps[k]);
    }
    assert DecodeAll(items).value == ArrivingExprs(GoExprs(ps));
  }

  lemma {:induction false} DocumentUnchangedIffFinite(ps: seq<PushExpr>)
    ensures ArrivingExprs(GoExprs(ps)) == GoExprs(ps) <==> forall k | 0 <= k < |ps| :: FinitePredicate(ps[k])
  {
    forall k | 0 <= k < |ps| ensures ArrivingExprs(GoExprs(ps))[k] == GoExprs(ps)[k] <==> FinitePredicate(ps[k]) {
      ArrivesUnchangedIffFinite(ps[k]);
    }
  }

  /** The whole document: `filters_to_json` and `decodeFilters` carry the list of predicates over unchanged. */
  lemma {:induction false} FiltersRoundTrip(filters: seq<EngineExpr>, schema: seq<string>)
    requires forall k | 0 <= k < |Recognized(filters, schema)| :: WellTypedPredicate(Recognized(filters, schema)[k])
    ensures var doc, ps := FiltersToJson(filters, schema), Recognized(filters, schema);
            && (doc.None? <==> ps == [])
            && (doc.Some? ==> (Decoded(doc.value) == Ok(GoExprs(ps)) <==>
                               forall k | 0 <= k < |ps| :: FinitePredicate(ps[k])))
  {
    DocumentArrives(Recognized(filters, schema));
    DocumentUnchangedIffFinite(Recognized(filters, schema));
  }

  // ----- Nothing else decodes -----

  /** Each name is read as exactly one operator, unit or width, and no other name is read at all. */
  lemma {:induction false} NamesAreExact(s: string, op: CompareOp, unit: TimeUnit, w: Width)
    ensures DecodeOp(s) == Some(op) <==> s == OpName(op)
    ensures DecodeUnit(s) == Some(unit) <==> s == UnitName(unit)
    ensures SignedWidth(s) == Some(w) <==> s == SignedName(w)
    ensures UnsignedWidth(s) == Some(w) <==> s == UnsignedName(w)
  {
  }

  /** The type a literal's document must name. */
  function LiteralTag(l: Literal): string {
    match l
    case LitBool(_) => "bool"
    case LitInt(w, _) => if w == W8 then "int8" else if w == W16 then "int16" else if w == W32 then "int32" else "int64"
    case LitUint(w, _) =>
      if w == W8 then "uint8" else if w == W16 then "uint16" else if w == W32 then "uint32" else "uint64"
    case LitFloat32(_) => "float32"
    case LitFloat64(_) => "float64"
    case LitUtf8(_) => "utf8"
    case LitBinary(_) => "binary"
    case LitDate32(_) => "date32"
    case LitDate64(_) => "date64"
    case LitTimestamp(_, _, _) => "timestamp"
  }

  predicate SaysInt(v: Json, i: int) {
    v == JInt(i) || (v.JNull? && i == 0)
  }

  predicate SaysFloat(v: Json, f: Float) {
    v == JReal(f) || (v.JInt? && f == Fin(v.i as real)) || (v.JNull? && f == Fin(0.0))
  }

  /** The JSON value is the literal's, or null for the zero of its Go type. */
  predicate Says(v: Json, l: Literal) {
    match l
    case LitBool(b) => v == JBool(b) || (v.JNull? && !b)
    case LitInt(_, i) => SaysInt(v, i)
    case LitUint(_, u) => SaysInt(v, u)
    case LitFloat32(f) => SaysFloat(v, f)
    case LitFloat64(f) => SaysFloat(v, f)
    case LitUtf8(t) => v == JString(t) || (v.JNull? && t == "")
    case LitBinary(b) => (v.JString? && Base64.Decode(v.s) == Some(b)) || (v.JNull? && b == [])
    case LitDate32(d) => SaysInt(v, d)
    case LitDate64(m) => SaysInt(v, m)
    case LitTimestamp(t, _, _) => SaysInt(v, t)
  }

  /** The document of a literal: its type's name, its value within the Go type, and a timestamp's unit and zone. */
  predicate Describes(tag: string, v: Json, unit: string, tz: string, l: Literal) {
    && tag == LiteralTag(l) && Says(v, l) && FitsGoType(l)
    && (l.LitTimestamp? ==> unit == UnitName(l.unit) && l.zone == tz)
  }

  lemma {:induction false} IntegersExactly(tag: string, v: Json, unit: string, tz: string, l: Literal)
    requires SignedWidth(tag).Some? || UnsignedWidth(tag).Some?
    ensures DecodeTagged(tag, v, unit, tz) == Ok(l) <==> Describes(tag, v, unit, tz, l)
  {
    if l.LitInt? || l.LitUint? {
      NamesAreExact(tag, Eq, Second, l.width);
    }
  }

  lemma {:induction false} TimestampsExactly(v: Json, unit: string, tz: string, l: Literal)
    ensures DecodeTagged("timestamp", v, unit, tz) == Ok(l) <==> Describes("timestamp", v, unit, tz, l)
  {
    OtherTags("timestamp");
    if l.LitTimestamp? {
      NamesAreExact(unit, Eq, l.unit, W8);
    }
  }

  lemma {:induction false} BinariesExactly(v: Json, unit: string, tz: string, l: Literal)
    ensures DecodeTagged("binary", v, unit, tz) == Ok(l) <==> Describes("binary", v, unit, tz, l)
  {
    OtherTags("binary");
    Base64.DecodeInvertsEncode([]);
  }

  lemma {:induction false} FloatsExactly(tag: string, v: Json, unit: string, tz: string, l: Literal)
    requires tag == "float32" || tag == "float64"
    ensures DecodeTagged(tag, v, unit, tz) == Ok(l) <==> Describes(tag, v, unit, tz, l)
  {
    OtherTags(tag);
    if l.LitInt? || l.LitUint? {
      IntegerTags(l.width);
    }
  }

  lemma {:induction false} OthersExactly(tag: string, v: Json, unit: string, tz: string, l: Literal)
    requires SignedWidth(tag).None? && UnsignedWidth(tag).None?
    requires tag !in ["timestamp", "binary", "float32", "float64"]
    ensures DecodeTagged(tag, v, unit, tz) == Ok(l) <==> Describes(tag, v, unit, tz, l)
  {
    if l.LitInt? || l.LitUint? {
      IntegerTags(l.width);
    }
  }

  /** A document is read as a literal exactly when it describes it: the type named, the value as it stands or null. */
  lemma {:induction false} LiteralReadExactly(j: Json, l: Literal)
    ensures DecodeLiteral(j) == Ok(l) <==>
            && j.JObject? && StringField(j.members, "unit").Ok? && StringField(j.members, "tz").Ok?
            && StringField(j.members, "type").Ok? && Lookup(j.members, "value").Some?
            && Describes(StringField(j.members, "type").value, Lookup(j.members, "value").value,
                         StringField(j.members, "unit").value, StringField(j.members, "tz").value, l)
  {
    if j.JObject? && StringField(j.members, "unit").Ok? && StringField(j.members, "tz").Ok?
      && StringField(j.members, "type").Ok? && Lookup(j.members, "value").Some? {
      var tag, v := StringField(j.members, "type").value, Lookup(j.members, "value").value;
      var unit, tz := StringField(j.members, "unit").value, StringField(j.members, "tz").value;
      if SignedWidth(tag).Some? || UnsignedWidth(tag).Some? {
        IntegersExactly(tag, v, unit, tz, l);
      } else if tag == "timestamp" {
        TimestampsExactly(v, unit, tz, l);
      } else if tag == "binary" {
        BinariesExactly(v, unit, tz, l);
      } else if tag == "float32" || tag == "float64" {
        FloatsExactly(tag, v, unit, tz, l);
      } else {
        OthersExactly(tag, v, unit, tz, l);
      }
    }
  }

  /** Of several members of a name the last one counts; an absent or null field is zero; other kinds of value fail. */
  lemma FieldsRead(ms: Members, name: string, v: Json)
    ensures Lookup(ms, name).Some? ==> Lookup(Member(name, v, ms), name) == Lookup(ms, name)
    ensures Lookup(ms, name) == None || Lookup(ms, name) == Some(JNull) ==>
              && StringField(ms, name) == Ok("") && BoolField(ms, name) == Ok(false)
              && ListField(ms, name) == Ok([]) && ColumnField(ms, name) == Ok(Column("", 0))
    ensures Lookup(ms, name).Some? && !Lookup(ms, name).value.JNull? ==>
              && (StringField(ms, name).Ok? ==> Lookup(ms, name).value.JString?)
              && (BoolField(ms, name).Ok? ==> Lookup(ms, name).value.JBool?)
              && (ListField(ms, name).Ok? ==> Lookup(ms, name).value.JArray?)
              && (ColumnField(ms, name).Ok? ==> Lookup(ms, name).value.JObject?)
  {
  }

  function KindName(e: Expr): string {
    match e
    case Compare(_, _, _) => "compare"
    case IsNull(_, _) => "is_null"
    case Between(_, _, _, _) => "between"
    case InList(_, _, _) => "in_list"
    case And(_, _) => "and"
    case Or(_, _) => "or"
    case Not(_) => "not"
  }

  /** Every integer read, literal or column index, fits its Go type. */
  predicate EverythingFits(e: Expr) {
    EveryLiteral(e, FitsGoType) && ColumnsFit(e)
  }

  lemma ColumnReadFits(ms: Members)
    requires ColumnField(ms, "column").Ok?
    ensures FitsSigned(W64, ColumnField(ms, "column").value.index)
  {
  }

  lemma {:induction false} LeafReadFits(ms: Members)
    requires DecodeExpr(JObject(ms)).Ok? && !DecodeExpr(JObject(ms)).value.And?
             && !DecodeExpr(JObject(ms)).value.Or? && !DecodeExpr(JObject(ms)).value.Not?
    ensures EverythingFits(DecodeExpr(JObject(ms)).value)
  {
    ColumnReadFits(ms);
    var e := DecodeExpr(JObject(ms)).value;
    if e.Compare? {
      LiteralReadExactly(Lookup(ms, "literal").value, e.literal);
    } else if e.Between? {
      LiteralReadExactly(Lookup(ms, "low").value, e.low);
      LiteralReadExactly(Lookup(ms, "high").value, e.high);
    } else if e.InList? && e.list != [] {
      var items := Lookup(ms, "list").value.items;
      forall k | 0 <= k < |e.list| ensures FitsGoType(e.list[k]) {
        LiteralReadExactly(items[k], e.list[k]);
      }
    }
  }

  /** The members a predicate is made of: every part of it is there and says so. */
  predicate MadeOf(e: Expr, ms: Members) {
    match e
    case Compare(c, op, l) =>
      && ColumnField(ms, "column") == Ok(c) && StringField(ms, "op") == Ok(OpName(op))
      && LiteralField(ms, "literal") == Ok(l)
    case IsNull(c, negated) => ColumnField(ms, "column") == Ok(c) && BoolField(ms, "negated") == Ok(negated)
    case Between(c, negated, low, high) =>
      && ColumnField(ms, "column") == Ok(c) && BoolField(ms, "negated") == Ok(negated)
      && LiteralField(ms, "low") == Ok(low) && LiteralField(ms, "high") == Ok(high)
    case InList(c, negated, list) =>
      && ColumnField(ms, "column") == Ok(c) && BoolField(ms, "negated") == Ok(negated)
      && ListField(ms, "list") == Ok(list)
    case And(l, r) => Child(ms, "left") == Ok(l) && Child(ms, "right") == Ok(r)
    case Or(l, r) => Child(ms, "left") == Ok(l) && Child(ms, "right") == Ok(r)
    case Not(x) => Child(ms, "expr") == Ok(x)
  }

  /** The predicate under a key; it must be there. */
  function Child(ms: Members, name: string): Result<Expr> {
    if Lookup(ms, name).Some? then DecodeExpr(Lookup(ms, name).value) else Err
  }

  /** Whatever document a predicate is read from names its kind, has every part of it, and every number in it fits. */
  lemma {:induction false} DecodedFits(j: Json)
    requires DecodeExpr(j).Ok?
    ensures var e := DecodeExpr(j).value;
            && j.JObject? && StringField(j.members, "kind") == Ok(KindName(e)) && EverythingFits(e)
            && MadeOf(e, j.members)
  {
    var ms, e := j.members, DecodeExpr(j).value;
    if e.And? || e.Or? {
      DecodedFits(Lookup(ms, "left").value);
      DecodedFits(Lookup(ms, "right").value);
    } else if e.Not? {
      DecodedFits(Lookup(ms, "expr").value);
    } else {
      LeafReadFits(ms);
      if e.Compare? {
        NamesAreExact(StringField(ms, "op").value, e.op, Second, W8);
      }
    }
  }
}
