/** From a column chunk's written statistics to the skip evaluator's view: `providers/parquet/stats.go`. */
module Stats {
  import opened Wrappers
  import opened Values
  import opened Predicates
  import opened Skip
  import opened SkipSoundness

  // ----- Physical storage -----

  datatype PhysicalKind =
    KindBool | KindInt32 | KindInt64 | KindFloat32 | KindFloat64 | KindByteArray | KindFixed | KindOther

  datatype Physical =
    | PhysBool(b: bool)
    | PhysInt32(i: int)
    | PhysInt64(i: int)
    | PhysFloat32(f: Float)
    | PhysFloat64(f: Float)
    | PhysByteArray(bytes: seq<char>)
    | PhysFixed(bytes: seq<char>)

  function KindOf(p: Physical): PhysicalKind {
    match p
    case PhysBool(_) => KindBool
    case PhysInt32(_) => KindInt32
    case PhysInt64(_) => KindInt64
    case PhysFloat32(_) => KindFloat32
    case PhysFloat64(_) => KindFloat64
    case PhysByteArray(_) => KindByteArray
    case PhysFixed(_) => KindFixed
  }

  /** Go's `uint32(x)` and `uint64(x)` of a signed integer, by the modulus. */
  function Unsigned(i: int, modulus: int): int {
    if i < 0 then i + modulus else i
  }

  /** Go's `int32(x)` and `int64(x)` of an unsigned integer, by the modulus. */
  function Signed(u: int, modulus: int): int {
    if 2 * u >= modulus then u - modulus else u
  }

  const TWO32 := 0x1_0000_0000
  const TWO64 := 0x1_0000_0000_0000_0000

  /** One bound reinterpreted in the column's domain; nothing when the physical type is not the expected one. */
  function FromPhysical(p: Physical, dt: DataType): (v: Option<StatValue>)
    ensures v.Some? ==> DomainOfType(dt) == Some(DomainOf(v.value))
  {
    match dt
    case BoolType => if p.PhysBool? then Some(BoolVal(p.b)) else None
    case IntType(W64) => if p.PhysInt64? then Some(IntVal(p.i)) else None
    case IntType(_) => if p.PhysInt32? then Some(IntVal(p.i)) else None
    case UintType(W64) => if p.PhysInt64? then Some(UintVal(Unsigned(p.i, TWO64))) else None
    case UintType(_) => if p.PhysInt32? then Some(UintVal(Unsigned(p.i, TWO32))) else None
    case Float32Type => if p.PhysFloat32? then Some(FloatVal(p.f)) else None
    case Float64Type => if p.PhysFloat64? then Some(FloatVal(p.f)) else None
    case StringType(_) => if p.PhysByteArray? then Some(BytesVal(p.bytes)) else None
    case BinaryType(_) => if p.PhysByteArray? then Some(BytesVal(p.bytes)) else None
    case FixedBinaryType => if p.PhysFixed? then Some(BytesVal(p.bytes)) else None
    case Date32Type => if p.PhysInt32? then Some(IntVal(p.i)) else None
    case TimestampType(_) => if p.PhysInt64? then Some(IntVal(p.i)) else None
    case OtherType => None
  }

  /** A value a column of the type can hold. */
  predicate Storable(v: StatValue, dt: DataType) {
    && DomainOfType(dt) == Some(DomainOf(v))
    && match dt
       case IntType(w) => FitsSigned(w, v.i)
       case UintType(w) => FitsUnsigned(w, v.u)
       case Date32Type => FitsSigned(W32, v.i)
       case TimestampType(_) => FitsSigned(W64, v.i)
       case _ => true
  }

  /** What a writer stores for the value: unsigned integers as the signed integer of the same bits. */
  function Store(v: StatValue, dt: DataType): Physical
    requires Storable(v, dt)
  {
    match dt
    case BoolType => PhysBool(v.b)
    case IntType(W64) => PhysInt64(v.i)
    case IntType(_) => PhysInt32(v.i)
    case UintType(W64) => PhysInt64(Signed(v.u, TWO64))
    case UintType(_) => PhysInt32(Signed(v.u, TWO32))
    case Float32Type => PhysFloat32(v.f)
    case Float64Type => PhysFloat64(v.f)
    case StringType(_) => PhysByteArray(v.bytes)
    case BinaryType(_) => PhysByteArray(v.bytes)
    case FixedBinaryType => PhysFixed(v.bytes)
    case Date32Type => PhysInt32(v.i)
    case TimestampType(_) => PhysInt64(v.i)
  }

  /** Reinterpreting a stored value gives the value back, so different values are stored differently. */
  lemma ReinterpretInvertsStore(v: StatValue, dt: DataType)
    requires Storable(v, dt)
    ensures FromPhysical(Store(v, dt), dt) == Some(v)
  {
    match dt {
      case UintType(w) => assert v == UintVal(v.u);
      case _ =>
    }
  }

  /** A bound decodes exactly when it is physically what a value of the type is stored as. */
  lemma DecodesItsKind(p: Physical, dt: DataType)
    ensures FromPhysical(p, dt).Some? <==> exists v :: Storable(v, dt) && KindOf(Store(v, dt)) == KindOf(p)
  {
    if FromPhysical(p, dt).Some? {
      var v := ZeroValue(dt);
      assert Storable(v, dt) && KindOf(Store(v, dt)) == KindOf(p);
    }
  }

  /** The zero of a column's domain. */
  function ZeroValue(dt: DataType): (v: StatValue)
    requires DomainOfType(dt).Some?
    ensures Storable(v, dt)
  {
    match DomainOfType(dt).value
    case DomainBool => BoolVal(false)
    case DomainInt => IntVal(0)
    case DomainUint => UintVal(0)
    case DomainFloat => FloatVal(Fin(0.0))
    case DomainBytes => BytesVal([])
  }

  // ----- Written and decoded statistics -----

  /** The statistics of one chunk as the file holds them; each field is optional in the format. */
  datatype ChunkStats = ChunkStats(kind: PhysicalKind, nullCount: Option<int>, min: Option<Physical>,
                                   max: Option<Physical>)

  /** A written bound is of the chunk's physical type. */
  predicate WellKinded(ts: ChunkStats) {
    && (ts.min.Some? ==> KindOf(ts.min.value) == ts.kind)
    && (ts.max.Some? ==> KindOf(ts.max.value) == ts.kind)
  }

  /** The decoder's value for an omitted bound. */
  function Zero(kind: PhysicalKind): Physical {
    match kind
    case KindBool => PhysBool(false)
    case KindInt32 => PhysInt32(0)
    case KindInt64 => PhysInt64(0)
    case KindFloat32 => PhysFloat32(Fin(0.0))
    case KindFloat64 => PhysFloat64(Fin(0.0))
    case KindByteArray => PhysByteArray([])
    case KindFixed => PhysFixed([])
    case KindOther => PhysFixed([])
  }

  /** `NullCount()`: an omitted count decodes as zero, and `HasNullCount()` is always true. */
  function DecodedNullCount(ts: ChunkStats): int {
    if ts.nullCount.Some? then ts.nullCount.value else 0
  }

  /** `HasMinMax()`: either bound was written. */
  predicate HasMinMax(ts: ChunkStats) {
    ts.min.Some? || ts.max.Some?
  }

  function Decoded(bound: Option<Physical>, kind: PhysicalKind): Physical {
    if bound.Some? then bound.value else Zero(kind)
  }

  function StatsMinMax(ts: ChunkStats, dt: DataType): (range: Option<(StatValue, StatValue)>)
    ensures range.Some? ==> DomainOfType(dt) == Some(DomainOf(range.value.0)) == Some(DomainOf(range.value.1))
  {
    var min, max := FromPhysical(Decoded(ts.min, ts.kind), dt), FromPhysical(Decoded(ts.max, ts.kind), dt);
    if min.Some? && max.Some? && ts.kind != KindOther then Some((min.value, max.value)) else None
  }

  /** `colStatsFromTyped`; nothing when neither part can be trusted. */
  function ColStatsFromTyped(ts: ChunkStats, dt: DataType): (cs: Option<ColStats>)
    ensures cs.Some? ==> WellTyped(cs.value) && cs.value.dtype == dt
  {
    var nullCount := if DecodedNullCount(ts) > 0 then Some(DecodedNullCount(ts)) else None;
    var range := TrustedRange(ts, dt);
    if nullCount.Some? || range.Some? then Some(ColStats(dt, range, nullCount)) else None
  }

  function TrustedRange(ts: ChunkStats, dt: DataType): (range: Option<(StatValue, StatValue)>)
    ensures range.Some? ==> DomainOfType(dt) == Some(DomainOf(range.value.0)) == Some(DomainOf(range.value.1))
  {
    var range := StatsMinMax(ts, dt);
    if HasMinMax(ts) && range.Some? && !IsNaN(range.value.0) && !IsNaN(range.value.1)
       && CmpVal(range.value.0, range.value.1) <= 0 then range else None
  }

  // ----- Faithfulness -----

  /** The written bounds admit the value; a bound counts only in the column's own type. */
  ghost predicate Admits(ts: ChunkStats, dt: DataType, x: StatValue) {
    && DomainOfType(dt) == Some(DomainOf(x))
    && (ts.min.Some? && FromPhysical(ts.min.value, dt).Some? ==> TotalCmp(FromPhysical(ts.min.value, dt).value, x) <= 0)
    && (ts.max.Some? && FromPhysical(ts.max.value, dt).Some? ==> TotalCmp(x, FromPhysical(ts.max.value, dt).value) <= 0)
  }

  /** What the writer put down is true of the rows; bounds are computed without NaNs. */
  ghost predicate TruthfulChunk(ts: ChunkStats, dt: DataType, c: int, rows: seq<Row>) {
    && WellKinded(ts)
    && (ts.nullCount.Some? ==> ts.nullCount.value == CountNulls(rows, c))
    && forall r | r in rows && CellAt(r, c).Val? && !IsNaN(CellAt(r, c).v) :: Admits(ts, dt, CellAt(r, c).v)
  }

  /**
   * A chunk whose statistics may be trusted: both bounds or neither were written, or the decoded pair is dropped, or
   * only the maximum was written and the zero standing in for the minimum is the least value of the column's domain.
   */
  predicate SafeBounds(ts: ChunkStats, dt: DataType) {
    || ts.min.Some? == ts.max.Some?
    || TrustedRange(ts, dt).None?
    || (ts.max.Some? && (dt.BoolType? || dt.UintType? || dt.StringType? || dt.BinaryType? || dt.FixedBinaryType?))
  }

  /** Column c has values a writer could have stored. */
  ghost predicate StorableColumn(dt: DataType, c: int, rows: seq<Row>) {
    forall r | r in rows && CellAt(r, c).Val? :: Storable(CellAt(r, c).v, dt)
  }

  lemma SafeBoundsSuffice(ts: ChunkStats, dt: DataType, c: int, rows: seq<Row>)
    requires SafeBounds(ts, dt) && TruthfulChunk(ts, dt, c, rows) && StorableColumn(dt, c, rows)
    ensures var cs := ColStatsFromTyped(ts, dt); cs.Some? ==> FaithfulColumn(cs.value, dt, c, rows)
  {
    var range := TrustedRange(ts, dt);
    if range.Some? {
      forall r | r in rows && CellAt(r, c).Val? && !IsNaN(CellAt(r, c).v) ensures Within(CellAt(r, c).v, range.value) {
        assert Storable(CellAt(r, c).v, dt);
      }
    }
  }

  lemma UnsafeBoundsMiss(ts: ChunkStats, dt: DataType) returns (x: StatValue)
    requires WellKinded(ts) && !SafeBounds(ts, dt)
    ensures Storable(x, dt) && !IsNaN(x) && Admits(ts, dt, x) && !Within(x, TrustedRange(ts, dt).value)
  {
    x := match DomainOfType(dt).value
         case DomainBool => BoolVal(true)
         case DomainInt => IntVal(if ts.max.Some? then -1 else 1)
         case DomainUint => UintVal(1)
         case DomainFloat => FloatVal(Fin(if ts.max.Some? then -1.0 else 1.0))
         case DomainBytes => BytesVal("a");
  }

  /** A row group that fits one-sided statistics but not the range decoded from them. */
  lemma UnsafeBoundsLie(ts: ChunkStats, dt: DataType, c: nat) returns (rows: seq<Row>)
    requires WellKinded(ts) && (ts.nullCount.Some? ==> ts.nullCount.value >= 0)
    requires !SafeBounds(ts, dt)
    ensures TruthfulChunk(ts, dt, c, rows) && StorableColumn(dt, c, rows)
    ensures var cs := ColStatsFromTyped(ts, dt); cs.Some? && !FaithfulColumn(cs.value, dt, c, rows)
  {
    var outside := UnsafeBoundsMiss(ts, dt);
    var nulls := seq(if ts.nullCount.Some? then ts.nullCount.value else 0, _ => []);
    var last := RowWith(c, outside);
    rows := nulls + [last];
    CountUniform(nulls, c, true);
    CountAppend(nulls, last, c);
    assert CellAt(last, c) == Val(outside) && last == rows[|nulls|];
    forall r | r in rows && CellAt(r, c).Val? ensures CellAt(r, c) == Val(outside) {
      assert r in nulls || r == last;
    }
  }

  lemma {:induction false} CountAppend(rows: seq<Row>, r: Row, c: int)
    ensures CountNulls(rows + [r], c) == CountNulls(rows, c) + (if CellAt(r, c).Null? then 1 else 0)
  {
    if rows == [] {
      assert CountNulls([r][1..], c) == 0;
      assert rows + [r] == [r];
    } else {
      assert (rows + [r])[1..] == rows[1..] + [r];
      CountAppend(rows[1..], r, c);
    }
  }

  /**
   * The adapter turns true chunk statistics into faithful ones, for all rows they may be about, exactly under
   * SafeBounds. An omitted null count never proves anything either way.
   */
  lemma AdapterFaithfulIffSafe(ts: ChunkStats, dt: DataType, c: nat)
    requires WellKinded(ts) && (ts.nullCount.Some? ==> ts.nullCount.value >= 0)
    ensures SafeBounds(ts, dt) <==>
            forall rows | TruthfulChunk(ts, dt, c, rows) && StorableColumn(dt, c, rows) ::
              var cs := ColStatsFromTyped(ts, dt); cs.Some? ==> FaithfulColumn(cs.value, dt, c, rows)
  {
    if SafeBounds(ts, dt) {
      forall rows | TruthfulChunk(ts, dt, c, rows) && StorableColumn(dt, c, rows)
        ensures var cs := ColStatsFromTyped(ts, dt); cs.Some? ==> FaithfulColumn(cs.value, dt, c, rows)
      {
        SafeBoundsSuffice(ts, dt, c, rows);
      }
    } else {
      var rows := UnsafeBoundsLie(ts, dt, c);
    }
  }

  /** What is written truthfully and in full is also used: positive null counts, and the bounds some values attain. */
  lemma AdapterLosesNothing(min: StatValue, max: StatValue, nulls: Option<int>, dt: DataType)
    requires Storable(min, dt) && Storable(max, dt) && !IsNaN(min) && !IsNaN(max) && CmpVal(min, max) <= 0
    ensures var ts := ChunkStats(KindOf(Store(min, dt)), nulls, Some(Store(min, dt)), Some(Store(max, dt)));
            ColStatsFromTyped(ts, dt) ==
            Some(ColStats(dt, Some((min, max)), if nulls.Some? && nulls.value > 0 then nulls else None))
  {
    ReinterpretInvertsStore(min, dt);
    ReinterpretInvertsStore(max, dt);
  }

  // ----- The adapter, part by part -----

  /** A null count is used exactly when it was written and is positive, and as it was written. */
  lemma NullCountUsedExactly(ts: ChunkStats, dt: DataType, n: int)
    ensures (var cs := ColStatsFromTyped(ts, dt); cs.Some? && cs.value.nullCount == Some(n)) <==>
            ts.nullCount == Some(n) && n > 0
  {
  }

  /** Bounds that are used are in order, neither is NaN, and at least one was written. */
  lemma UsedBoundsAreOrdered(ts: ChunkStats, dt: DataType)
    ensures var cs := ColStatsFromTyped(ts, dt);
            cs.Some? && cs.value.range.Some? ==>
              var (min, max) := cs.value.range.value;
              && (ts.min.Some? || ts.max.Some?) && !IsNaN(min) && !IsNaN(max) && !Below(max, min)
              && Ordered(cs.value)
  {
    var range := TrustedRange(ts, dt);
    if range.Some? {
      TotalCmpIsOrder(range.value.0, range.value.1);
    }
  }

  lemma ZeroIsStored(v: StatValue, dt: DataType)
    requires Storable(v, dt)
    ensures Zero(KindOf(Store(v, dt))) == Store(ZeroValue(dt), dt) && KindOf(Store(v, dt)) != KindOther
  {
  }

  /** A bound that was not written is taken for zero, and the pair is used exactly when that leaves it in order. */
  lemma OneBoundReadsZero(v: StatValue, dt: DataType, isMax: bool)
    requires Storable(v, dt) && !IsNaN(v)
    ensures var stored := Store(v, dt);
            var ts := ChunkStats(KindOf(stored), None, if isMax then None else Some(stored),
                                 if isMax then Some(stored) else None);
            var (min, max) := if isMax then (ZeroValue(dt), v) else (v, ZeroValue(dt));
            ColStatsFromTyped(ts, dt) ==
            if Below(max, min) then None else Some(ColStats(dt, Some((min, max)), None))
  {
    ZeroIsStored(v, dt);
    ReinterpretInvertsStore(v, dt);
    ReinterpretInvertsStore(ZeroValue(dt), dt);
    TotalCmpIsOrder(v, ZeroValue(dt));
    TotalCmpIsOrder(ZeroValue(dt), v);
  }
}
