/** Bloom filter probes of one row group: `providers/parquet/bloom.go`. */
module Bloom {
  import opened Wrappers
  import opened Values
  import opened Predicates
  import opened Skip
  import opened SkipSoundness
  import opened Schema
  import opened Stats

  /** A filter's membership check: false is a definite absence. */
  type BloomFilter = Physical -> bool

  /** The row group's filters as the file yields them; an I/O error reads as no filter. */
  datatype BloomFile = BloomFile(opens: bool, filters: int -> Option<BloomFilter>)

  /** `bloomProbe`: the literal in the column's physical representation; floats and booleans have no probe. */
  function BloomProbe(l: Literal, dt: DataType): Option<Physical> {
    match dt
    case StringType(_) => if l.LitUtf8? then Some(PhysByteArray(l.text)) else None
    case BinaryType(_) => if l.LitBinary? then Some(PhysByteArray(l.bytes)) else None
    case FixedBinaryType => if l.LitBinary? then Some(PhysFixed(l.bytes)) else None
    case IntType(W64) => if l.LitInt? then Some(PhysInt64(l.i)) else None
    case IntType(_) => if l.LitInt? && FitsSigned(W32, l.i) then Some(PhysInt32(l.i)) else None
    case UintType(W64) => if l.LitUint? then Some(PhysInt64(Signed(l.u, TWO64))) else None
    case UintType(_) => if l.LitUint? && l.u < TWO32 then Some(PhysInt32(Signed(l.u, TWO32))) else None
    case Date32Type => if l.LitDate32? then Some(PhysInt32(l.days)) else None
    case TimestampType(unit) => if l.LitTimestamp? && l.unit == unit then Some(PhysInt64(l.ticks)) else None
    case _ => None
  }

  /** What an uncached prober answers: the field's own filter exists and denies the probe. */
  function AbsentSpec(file: BloomFile, manifest: seq<SchemaField>, types: seq<DataType>, field: int, l: Literal): bool {
    && 0 <= field < |manifest| && field < |types|
    && manifest[field].Leaf?
    && BloomProbe(l, types[field]).Some?
    && file.opens && file.filters(manifest[field].col).Some?
    && !file.filters(manifest[field].col).value(BloomProbe(l, types[field]).value)
  }

  class RowGroupBloomProber {
    const file: BloomFile
    const manifest: seq<SchemaField>
    const types: seq<DataType>

    var rgReader: bool     // the row group's filter reader was opened
    var rgReaderErr: bool  // opening it failed
    var cache: map<int, Option<BloomFilter>>

    ghost predicate Valid()
      reads this
    {
      && (rgReader ==> file.opens) && (rgReaderErr ==> !file.opens)
      && forall leaf | leaf in cache :: file.opens && cache[leaf] == file.filters(leaf)
    }

    constructor (file: BloomFile, manifest: seq<SchemaField>, types: seq<DataType>)
      ensures Valid() && this.file == file && this.manifest == manifest && this.types == types
    {
      this.file, this.manifest, this.types := file, manifest, types;
      rgReader, rgReaderErr, cache := false, false, map[];
    }

    /** Lazy and cached, yet every call of every sequence of calls answers for this leaf as the file does. */
    method FilterFor(leaf: int) returns (filter: Option<BloomFilter>)
      requires Valid()
      modifies this
      ensures Valid()
      ensures file.opens ==> filter == file.filters(leaf)
      ensures !file.opens ==> filter.None?
    {
      if leaf in cache {
        return cache[leaf];
      }
      if !rgReader && !rgReaderErr {
        if file.opens {
          rgReader := true;
        } else {
          rgReaderErr := true;
        }
      }
      if !rgReader {
        return None;
      }
      filter := file.filters(leaf);
      cache := cache[leaf := filter];
    }

    method Absent(field: int, l: Literal) returns (absent: bool)
      requires Valid()
      modifies this
      ensures Valid()
      ensures absent <==>
              && 0 <= field < |manifest| && field < |types| && manifest[field].Leaf?
              && var filter := if file.opens then file.filters(manifest[field].col) else None;
                 filter.Some? && exists probe :: BloomProbe(l, types[field]) == Some(probe) && !filter.value(probe)
      ensures absent == AbsentSpec(file, manifest, types, field, l)
    {
      if field < 0 || field >= |manifest| || field >= |types| {
        return false;
      }
      if !manifest[field].Leaf? {
        return false;
      }
      var probe := BloomProbe(l, types[field]);
      if probe.None? {
        return false;
      }
      var filter := FilterFor(manifest[field].col);
      if filter.None? {
        return false;
      }
      absent := !filter.value(probe.value);
    }
  }

  // ----- Probes are exact -----

  /**
   * A stored value has the probe's bits exactly when it equals the literal, and only convertible literals are probed.
   */
  lemma ProbeMatchesExactly(l: Literal, dt: DataType, v: StatValue)
    requires Storable(v, dt) && BloomProbe(l, dt).Some?
    ensures LiteralValue(l, dt).Some? && DomainOf(LiteralValue(l, dt).value) == DomainOf(v)
    ensures TotalCmp(v, LiteralValue(l, dt).value) == 0 ==> Store(v, dt) == BloomProbe(l, dt).value
    ensures FitsGoType(l) && Store(v, dt) == BloomProbe(l, dt).value ==> TotalCmp(v, LiteralValue(l, dt).value) == 0
  {
    match dt {
      case StringType(_) => CompareBytesFlips(v.bytes, l.text);
      case BinaryType(_) => CompareBytesFlips(v.bytes, l.bytes);
      case FixedBinaryType => CompareBytesFlips(v.bytes, l.bytes);
      case _ =>
    }
  }

  /** The integer, if it is one, fits the column's physical width. */
  predicate FitsPhysical(l: Literal, dt: DataType) {
    match l
    case LitInt(_, i) => dt == IntType(W64) || FitsSigned(W32, i)
    case LitUint(_, u) => dt == UintType(W64) || u <= 0xFFFF_FFFF
    case _ => true
  }

  /** Only literals of the column's kind are probed, and all of them but floats, booleans and integers too wide. */
  lemma ProbedExactly(l: Literal, dt: DataType)
    ensures BloomProbe(l, dt).Some? <==>
            OfKind(l, dt) && !l.LitBool? && !l.LitFloat32? && !l.LitFloat64? && FitsPhysical(l, dt)
  {
  }

  /** A literal some stored value could equal is always probed, floats and booleans aside. */
  lemma MatchableLiteralsAreProbed(l: Literal, dt: DataType, v: StatValue)
    requires Storable(v, dt) && !v.FloatVal? && !v.BoolVal?
    requires LiteralValue(l, dt).Some? && TotalCmp(v, LiteralValue(l, dt).value) == 0
    ensures BloomProbe(l, dt) == Some(Store(v, dt))
  {
    if v.BytesVal? {
      CompareBytesFlips(v.bytes, LiteralValue(l, dt).value.bytes);
    }
  }

  /** Why floats are not probed: the two zeros are equal, and stored differently. */
  lemma FloatProbesWouldMiss()
    ensures var a, b := FloatVal(Fin(0.0)), FloatVal(NegZero);
            TotalCmp(a, b) == 0 && Store(a, Float64Type) != Store(b, Float64Type)
  {
  }

  /** No false negatives: a filter contains every value stored in its column. */
  ghost predicate HoldsAll(file: BloomFile, field: SchemaField, dt: DataType, c: int, rows: seq<Row>) {
    field.Leaf? && file.opens && file.filters(field.col).Some? ==>
      forall r | r in rows && CellAt(r, c).Val? && Storable(CellAt(r, c).v, dt) ::
        file.filters(field.col).value(Store(CellAt(r, c).v, dt))
  }

  /** So an absent answer is the truth about every row. */
  lemma AbsentIsTruthful(file: BloomFile, manifest: seq<SchemaField>, types: seq<DataType>, c: int, l: Literal,
                         rows: seq<Row>, r: Row, engine: Engine)
    requires AbsentSpec(file, manifest, types, c, l)
    requires HoldsAll(file, manifest[c], types[c], c, rows) && StorableColumn(types[c], c, rows)
    requires Agrees(c, l, types, r, engine) && r in rows && CellAt(r, c).Val?
    ensures engine.cmp(c, CellAt(r, c).v, l) != 0
  {
    var x := CellAt(r, c).v;
    ProbeMatchesExactly(l, types[c], x);
    AgreesInValues(c, l, types, r, engine);
  }
}
