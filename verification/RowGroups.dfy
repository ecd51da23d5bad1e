/** Row-group selection, `selectRowGroups` of `providers/parquet/pushdown.go`, over a whole Parquet file. */
module RowGroups {
  import opened Wrappers
  import opened Values
  import opened Predicates
  import opened Skip
  import opened SkipSoundness
  import opened Schema
  import opened Stats
  import opened Bloom

  /** A row group: its rows, the statistics its chunks yield by leaf column (if any), its bloom filters. */
  datatype RowGroup = RowGroup(rows: seq<Row>, chunks: int -> Option<ChunkStats>, blooms: BloomFile)

  datatype File = File(names: seq<string>, types: seq<DataType>, manifest: seq<SchemaField>, groups: seq<RowGroup>)

  predicate WellFormed(file: File) {
    |file.names| == |file.types|
  }

  // ----- Referenced fields -----

  predicate KnownColumn(c: Column, file: File)
    requires WellFormed(file)
  {
    0 <= c.index < |file.types| && c.index < |file.manifest| && file.names[c.index] == c.name
  }

  /** The fields one filter refers to consistently, by index and name. */
  function Visit(e: Expr, file: File): set<int>
    requires WellFormed(file)
  {
    match e
    case And(l, r) => Visit(l, file) + Visit(r, file)
    case Or(l, r) => Visit(l, file) + Visit(r, file)
    case Not(x) => Visit(x, file)
    case _ => if KnownColumn(e.column, file) then {e.column.index} else {}
  }

  function AllFields(filters: seq<Expr>, file: File): set<int>
    requires WellFormed(file)
  {
    if filters == [] then {}
    else AllFields(filters[..|filters| - 1], file) + Visit(filters[|filters| - 1], file)
  }

  /** Some leaf of the predicate is about the column. */
  predicate Mentions(e: Expr, c: Column) {
    match e
    case And(l, r) => Mentions(l, c) || Mentions(r, c)
    case Or(l, r) => Mentions(l, c) || Mentions(r, c)
    case Not(x) => Mentions(x, c)
    case _ => e.column == c
  }

  lemma {:induction false} VisitIsMentioned(e: Expr, file: File, i: int)
    requires WellFormed(file)
    ensures i in Visit(e, file) <==>
            0 <= i < |file.types| && i < |file.manifest| && Mentions(e, Column(file.names[i], i))
  {
    match e
    case And(l, r) =>
      VisitIsMentioned(l, file, i);
      VisitIsMentioned(r, file, i);
    case Or(l, r) =>
      VisitIsMentioned(l, file, i);
      VisitIsMentioned(r, file, i);
    case Not(x) => VisitIsMentioned(x, file, i);
    case _ =>
  }

  /** A filter refers, consistently with the schema, to the field. */
  ghost predicate Referenced(filters: seq<Expr>, file: File, i: int)
    requires WellFormed(file)
  {
    0 <= i < |file.types| && i < |file.manifest| &&
    exists k :: 0 <= k < |filters| && Mentions(filters[k], Column(file.names[i], i))
  }

  lemma {:induction false} AllFieldsAreReferenced(filters: seq<Expr>, file: File, i: int)
    requires WellFormed(file)
    ensures i in AllFields(filters, file) <==> Referenced(filters, file, i)
  {
    if filters != [] {
      var n := |filters| - 1;
      AllFieldsAreReferenced(filters[..n], file, i);
      VisitIsMentioned(filters[n], file, i);
      if Referenced(filters[..n], file, i) {
        var k :| 0 <= k < n && Mentions(filters[..n][k], Column(file.names[i], i));
        assert Mentions(filters[k], Column(file.names[i], i));
      }
      if Referenced(filters, file, i) {
        var k :| 0 <= k <= n && Mentions(filters[k], Column(file.names[i], i));
        if k < n { assert Mentions(filters[..n][k], Column(file.names[i], i)); }
      }
    }
  }

  method ReferencedFields(filters: seq<Expr>, file: File) returns (fields: set<int>)
    requires WellFormed(file)
    ensures fields == AllFields(filters, file)
    ensures forall i :: i in fields <==> Referenced(filters, file, i)
  {
    fields := {};
    for k := 0 to |filters|
      invariant fields == AllFields(filters[..k], file)
    {
      fields := fields + Visit(filters[k], file);
      assert filters[..k + 1][..k] == filters[..k];
    }
    assert filters[..|filters|] == filters;
    forall i ensures i in fields <==> Referenced(filters, file, i) {
      AllFieldsAreReferenced(filters, file, i);
    }
  }

  // ----- Row-group statistics -----

  /** The statistics entry of one field, if it gets one. */
  function FieldStats(g: RowGroup, file: File, i: int): (cs: Option<ColStats>)
    ensures cs.Some? ==> 0 <= i < |file.types| && cs.value.dtype == file.types[i] && WellTyped(cs.value)
  {
    if 0 <= i < |file.manifest| && i < |file.types| && file.manifest[i].Leaf?
      && g.chunks(file.manifest[i].col).Some? then
      ColStatsFromTyped(g.chunks(file.manifest[i].col).value, file.types[i])
    else None
  }

  function RowGroupStatsSpec(g: RowGroup, file: File, fields: set<int>): GroupStats {
    RowGroupStats(|g.rows|, map i | i in fields && FieldStats(g, file, i).Some? :: FieldStats(g, file, i).value)
  }

  method BuildRowGroupStats(g: RowGroup, file: File, fields: set<int>) returns (st: GroupStats)
    ensures st == RowGroupStatsSpec(g, file, fields)
  {
    var cols: map<int, ColStats> := map[];
    var todo := fields;
    while todo != {}
      invariant todo <= fields
      invariant cols == map i | i in fields - todo && FieldStats(g, file, i).Some? :: FieldStats(g, file, i).value
    {
      ghost var some := Member(todo);
      var i :| i in todo;
      todo := todo - {i};
      if i < 0 || i >= |file.manifest| || i >= |file.types| {
        continue;
      }
      if !file.manifest[i].Leaf? {
        continue;
      }
      var typed := g.chunks(file.manifest[i].col);
      if typed.None? {
        continue;
      }
      var cs := ColStatsFromTyped(typed.value, file.types[i]);
      if cs.None? {
        continue;
      }
      cols := cols[i := cs.value];
    }
    st := RowGroupStats(|g.rows|, cols);
  }

  // ----- Selection -----

  function ProberOf(g: RowGroup, file: File): Prober {
    (c: int, l: Literal) => AbsentSpec(g.blooms, file.manifest, file.types, c, l)
  }

  /** Some filter proves the row group free of matches. */
  predicate RuledOut(g: RowGroup, file: File, filters: seq<Expr>, fields: set<int>) {
    exists k :: 0 <= k < |filters| && CanSkip(filters[k], RowGroupStatsSpec(g, file, fields), Some(ProberOf(g, file)))
  }

  /** The verdict on every row group of a file. */
  function Verdict(file: File, filters: seq<Expr>): RowGroup -> bool
    requires WellFormed(file)
  {
    (g: RowGroup) => RuledOut(g, file, filters, AllFields(filters, file))
  }

  /** The indices below n of the row groups that are not ruled out. */
  function Survivors(groups: seq<RowGroup>, out: RowGroup -> bool, n: nat): (which: seq<nat>)
    requires n <= |groups|
    ensures forall k | 0 <= k < |which| :: which[k] < n
  {
    if n == 0 then [] else Survivors(groups, out, n - 1) + if out(groups[n - 1]) then [] else [n - 1]
  }

  /** One provably empty conjunct empties the row group. */
  method SkipsGroup(g: RowGroup, file: File, filters: seq<Expr>, fields: set<int>) returns (skip: bool)
    ensures skip == RuledOut(g, file, filters, fields)
  {
    var st := BuildRowGroupStats(g, file, fields);
    var bloom := ProberOf(g, file);
    skip := false;
    var k := 0;
    while k < |filters| && !skip
      invariant 0 <= k <= |filters|
      invariant skip <==> exists j :: 0 <= j < k && CanSkip(filters[j], st, Some(bloom))
    {
      skip := CanSkip(filters[k], st, Some(bloom));
      k := k + 1;
    }
  }

  /** The loop of `selectRowGroups`: the indices of the groups that are not skipped. */
  method KeepGroups(file: File, filters: seq<Expr>, fields: set<int>) returns (survivors: seq<nat>)
    requires WellFormed(file) && fields == AllFields(filters, file)
    ensures survivors == Survivors(file.groups, Verdict(file, filters), |file.groups|)
  {
    ghost var out := Verdict(file, filters);
    survivors := [];
    for i := 0 to |file.groups|
      invariant survivors == Survivors(file.groups, out, i)
    {
      var skip := SkipsGroup(file.groups[i], file, filters, fields);
      assert skip == out(file.groups[i]);
      if !skip {
        survivors := survivors + [i];
      }
    }
  }

  /** The row groups to read; None is "all". */
  method SelectRowGroups(file: File, filters: seq<Expr>) returns (selected: Option<seq<nat>>)
    requires WellFormed(file)
    ensures selected.Some? ==> selected.value == Survivors(file.groups, Verdict(file, filters), |file.groups|)
    ensures selected.None? <==>
            || AllFields(filters, file) == {}
            || forall i | 0 <= i < |file.groups| :: !Verdict(file, filters)(file.groups[i])
  {
    if |filters| == 0 {
      return None;
    }
    var fields := ReferencedFields(filters, file);
    if fields == {} {
      return None;
    }
    var n := |file.groups|;
    var survivors := KeepGroups(file, filters, fields);
    SurvivorCount(file.groups, Verdict(file, filters), n);
    if |survivors| == n {
      return None;
    }
    selected := Some(survivors);
  }

  lemma {:induction false} SurvivorCount(groups: seq<RowGroup>, out: RowGroup -> bool, n: nat)
    requires n <= |groups|
    ensures |Survivors(groups, out, n)| <= n
    ensures |Survivors(groups, out, n)| == n <==> forall i | 0 <= i < n :: !out(groups[i])
  {
    if n > 0 {
      SurvivorCount(groups, out, n - 1);
    }
  }

  predicate Ascends(which: seq<nat>) {
    forall j, k | 0 <= j < k < |which| :: which[j] < which[k]
  }

  /** The survivors are exactly the groups not ruled out, in ascending order. */
  lemma {:induction false} SurvivorsExactly(groups: seq<RowGroup>, out: RowGroup -> bool, n: nat)
    requires n <= |groups|
    ensures forall i: nat :: i in Survivors(groups, out, n) <==> i < n && !out(groups[i])
    ensures Ascends(Survivors(groups, out, n))
  {
    if n > 0 {
      SurvivorsExactly(groups, out, n - 1);
    }
  }

  // ----- Reading and filtering again -----

  /** A row meets a WHERE clause when every conjunct is true of it. */
  type RowTest = Row -> bool

  function Filter(keep: RowTest, rows: seq<Row>): seq<Row> {
    if rows == [] then [] else (if keep(rows[0]) then [rows[0]] else []) + Filter(keep, rows[1..])
  }

  function ReadFirst(groups: seq<RowGroup>, n: nat): seq<Row>
    requires n <= |groups|
  {
    if n == 0 then [] else ReadFirst(groups, n - 1) + groups[n - 1].rows
  }

  function ReadSome(groups: seq<RowGroup>, which: seq<nat>): seq<Row>
    requires forall k | 0 <= k < |which| :: which[k] < |groups|
  {
    if which == [] then [] else ReadSome(groups, which[..|which| - 1]) + groups[which[|which| - 1]].rows
  }

  /** All rows for None, the rows of the listed groups otherwise. */
  function Read(file: File, selected: Option<seq<nat>>): seq<Row>
    requires selected.Some? ==> forall k | 0 <= k < |selected.value| :: selected.value[k] < |file.groups|
  {
    if selected.None? then ReadFirst(file.groups, |file.groups|) else ReadSome(file.groups, selected.value)
  }

  /** The rows of a file come group after group. */
  lemma {:induction false} ReadInOrder(groups: seq<RowGroup>, i: nat, n: nat)
    requires i < n <= |groups|
    ensures var before, all := |ReadFirst(groups, i)|, ReadFirst(groups, n);
            before + |groups[i].rows| <= |all| && all[before..before + |groups[i].rows|] == groups[i].rows
            && (i == 0 ==> before == 0) && (i == n - 1 ==> before + |groups[i].rows| == |all|)
            && |ReadFirst(groups, i + 1)| == before + |groups[i].rows|
  {
    if i < n - 1 {
      ReadInOrder(groups, i, n - 1);
    }
  }

  /** So do those of selected groups. */
  lemma {:induction false} ReadSelected(groups: seq<RowGroup>, which: seq<nat>)
    requires forall k | 0 <= k < |which| :: which[k] < |groups|
    ensures ReadSome(groups, which) ==
            ReadFirst(seq(|which|, k requires 0 <= k < |which| => groups[which[k]]), |which|)
  {
    var n := |which|;
    if n > 0 {
      ReadSelected(groups, which[..n - 1]);
      var some := seq(n, k requires 0 <= k < n => groups[which[k]]);
      var fewer := seq(n - 1, k requires 0 <= k < n - 1 => groups[which[..n - 1][k]]);
      assert some[..n - 1] == fewer;
      ReadFirstPrefix(some, fewer, n - 1);
    }
  }

  lemma {:induction false} ReadFirstPrefix(groups: seq<RowGroup>, fewer: seq<RowGroup>, n: nat)
    requires n <= |fewer| && fewer <= groups
    ensures ReadFirst(groups, n) == ReadFirst(fewer, n)
  {
    if n > 0 {
      ReadFirstPrefix(groups, fewer, n - 1);
    }
  }

  /** Filtering keeps every row that passes as often as it occurs, and no other; by FilterAppend, in order. */
  lemma {:induction false} FilterIsExact(keep: RowTest, rows: seq<Row>, r: Row)
    ensures multiset(Filter(keep, rows))[r] == if keep(r) then multiset(rows)[r] else 0
  {
    if rows != [] {
      FilterIsExact(keep, rows[1..], r);
      assert rows == [rows[0]] + rows[1..];
    }
  }

  lemma {:induction false} FilterAppend(keep: RowTest, a: seq<Row>, b: seq<Row>)
    ensures Filter(keep, a + b) == Filter(keep, a) + Filter(keep, b)
  {
    if a == [] {
      assert a + b == b;
    } else {
      assert (a + b)[1..] == a[1..] + b;
      FilterAppend(keep, a[1..], b);
    }
  }

  lemma {:induction false} FilterNone(keep: RowTest, rows: seq<Row>)
    requires forall r | r in rows :: !keep(r)
    ensures Filter(keep, rows) == []
  {
    if rows != [] {
      FilterNone(keep, rows[1..]);
    }
  }

  // ----- "All" is every survivor -----

  lemma {:induction false} NothingKnownSkipsNothing(e: Expr, st: GroupStats, bloom: Option<Prober>)
    requires st.cols == map[]
    ensures !CanSkip(e, st, bloom)
    decreases Weight(e)
  {
    match e
    case And(a, b) =>
      NothingKnownSkipsNothing(a, st, bloom);
      NothingKnownSkipsNothing(b, st, bloom);
    case Or(a, b) => NothingKnownSkipsNothing(a, st, bloom);
    case Not(x) =>
      NegateDescends(x);
      NothingKnownSkipsNothing(Negate(x), st, bloom);
    case _ =>
  }

  lemma {:induction false} AllSurvive(groups: seq<RowGroup>, out: RowGroup -> bool, n: nat)
    requires n <= |groups| && forall i | 0 <= i < n :: !out(groups[i])
    ensures ReadSome(groups, Survivors(groups, out, n)) == ReadFirst(groups, n)
  {
    if n > 0 {
      AllSurvive(groups, out, n - 1);
      var before := Survivors(groups, out, n - 1);
      assert (before + [n - 1])[..|before|] == before;
    }
  }

  /** The rows of the row groups that are not ruled out, in order. */
  function ReadSurvivors(file: File, filters: seq<Expr>): seq<Row>
    requires WellFormed(file)
  {
    Read(file, Some(Survivors(file.groups, Verdict(file, filters), |file.groups|)))
  }

  /** Selection reads exactly the rows of the groups that are not ruled out, "all" included. */
  lemma SelectionReadsSurvivors(file: File, filters: seq<Expr>, selected: Option<seq<nat>>)
    requires WellFormed(file)
    requires selected.Some? ==> selected.value == Survivors(file.groups, Verdict(file, filters), |file.groups|)
    requires selected.None? ==>
               || AllFields(filters, file) == {}
               || forall i | 0 <= i < |file.groups| :: !Verdict(file, filters)(file.groups[i])
    ensures Read(file, selected) == ReadSurvivors(file, filters)
  {
    if selected.None? {
      forall g | AllFields(filters, file) == {} ensures !Verdict(file, filters)(g) {
        forall k | 0 <= k < |filters|
          ensures !CanSkip(filters[k], RowGroupStatsSpec(g, file, {}), Some(ProberOf(g, file)))
        {
          NothingKnownSkipsNothing(filters[k], RowGroupStatsSpec(g, file, {}), Some(ProberOf(g, file)));
        }
      }
      AllSurvive(file.groups, Verdict(file, filters), |file.groups|);
    }
  }

  // ----- Truthful files -----

  /** Statistics and filters tell the truth about the rows, and one-sided bounds are harmless. */
  ghost predicate TruthfulGroup(g: RowGroup, file: File) {
    && (forall r | r in g.rows :: TypedRow(r, file.types))
    && forall c | 0 <= c < |file.types| && c < |file.manifest| && file.manifest[c].Leaf? ::
         && StorableColumn(file.types[c], c, g.rows)
         && HoldsAll(g.blooms, file.manifest[c], file.types[c], c, g.rows)
         && (g.chunks(file.manifest[c].col).Some? ==>
               && TruthfulChunk(g.chunks(file.manifest[c].col).value, file.types[c], c, g.rows)
               && SafeBounds(g.chunks(file.manifest[c].col).value, file.types[c]))
  }

  lemma StatsAreFaithful(g: RowGroup, file: File, fields: set<int>)
    requires TruthfulGroup(g, file)
    ensures Faithful(RowGroupStatsSpec(g, file, fields), file.types, g.rows)
  {
    forall c | c in RowGroupStatsSpec(g, file, fields).cols
      ensures 0 <= c < |file.types|
      ensures FaithfulColumn(RowGroupStatsSpec(g, file, fields).cols[c], file.types[c], c, g.rows)
    {
      SafeBoundsSuffice(g.chunks(file.manifest[c].col).value, file.types[c], c, g.rows);
    }
  }

  lemma ProbesAreTruthful(g: RowGroup, file: File, c: int, l: Literal, r: Row, engine: Engine)
    requires TruthfulGroup(g, file) && Agrees(c, l, file.types, r, engine) && r in g.rows
    ensures Truthful(c, l, Some(ProberOf(g, file)), r, engine)
  {
    if ProberOf(g, file)(c, l) && CellAt(r, c).Val? {
      AbsentIsTruthful(g.blooms, file.manifest, file.types, c, l, g.rows, r, engine);
    }
  }

  lemma {:induction false} BloomsAreTruthful(e: Expr, g: RowGroup, file: File, r: Row, engine: Engine)
    requires TruthfulGroup(g, file) && AgreesOn(e, file.types, r, engine) && r in g.rows
    ensures TruthfulOn(e, Some(ProberOf(g, file)), r, engine)
  {
    match e
    case Compare(c, _, l) => ProbesAreTruthful(g, file, c.index, l, r, engine);
    case InList(c, _, list) =>
      forall k | 0 <= k < |list| ensures Truthful(c.index, list[k], Some(ProberOf(g, file)), r, engine) {
        ProbesAreTruthful(g, file, c.index, list[k], r, engine);
      }
    case And(a, b) =>
      BloomsAreTruthful(a, g, file, r, engine);
      BloomsAreTruthful(b, g, file, r, engine);
    case Or(a, b) =>
      BloomsAreTruthful(a, g, file, r, engine);
      BloomsAreTruthful(b, g, file, r, engine);
    case Not(x) => BloomsAreTruthful(x, g, file, r, engine);
    case _ =>
  }

  /** The row's value of column c is a NaN, and the row group has bounds for the column. */
  predicate ExposedIn(g: RowGroup, file: File, r: Row, c: int) {
    && CellAt(r, c).Val? && IsNaN(CellAt(r, c).v)
    && FieldStats(g, file, c).Some? && UsableRange(FieldStats(g, file, c).value)
  }

  /**
   * On this row the engine orders what the predicate compares, and the predicate fails on NaNs that bounds leave out.
   */
  ghost predicate SuitsRow(e: Expr, g: RowGroup, file: File, r: Row, engine: Engine) {
    AgreesOn(e, file.types, r, engine) && NaNsHarmless(e, false, (c: int) => ExposedIn(g, file, r, c))
  }

  ghost predicate SuitsFile(filters: seq<Expr>, file: File, engine: Engine) {
    forall k, i, r | 0 <= k < |filters| && 0 <= i < |file.groups| && r in file.groups[i].rows ::
      SuitsRow(filters[k], file.groups[i], file, r, engine)
  }

  /** No NaN is left out of bounds. */
  ghost predicate NoNaNExposed(file: File) {
    forall i, r, c | 0 <= i < |file.groups| && r in file.groups[i].rows :: !ExposedIn(file.groups[i], file, r, c)
  }

  lemma {:induction false} NothingExposedIsHarmless(e: Expr, negated: bool, exposed: int -> bool)
    requires forall c :: !exposed(c)
    ensures NaNsHarmless(e, negated, exposed)
  {
    match e
    case And(a, b) =>
      NothingExposedIsHarmless(a, negated, exposed);
      NothingExposedIsHarmless(b, negated, exposed);
    case Or(a, b) =>
      NothingExposedIsHarmless(a, negated, exposed);
      NothingExposedIsHarmless(b, negated, exposed);
    case Not(x) => NothingExposedIsHarmless(x, !negated, exposed);
    case _ =>
  }

  /** An engine that orders every domain suits every file without exposed NaNs, whatever is pushed. */
  lemma AgreeingEngineSuits(filters: seq<Expr>, file: File, engine: Engine)
    requires EngineAgrees(engine, file.types) && NoNaNExposed(file)
    ensures SuitsFile(filters, file, engine)
  {
    forall k, i, r | 0 <= k < |filters| && 0 <= i < |file.groups| && r in file.groups[i].rows
      ensures SuitsRow(filters[k], file.groups[i], file, r, engine)
    {
      AgreeingEngineAgreesOn(filters[k], file.types, r, engine);
      NothingExposedIsHarmless(filters[k], false, (c: int) => ExposedIn(file.groups[i], file, r, c));
    }
  }

  ghost predicate TruthfulFile(file: File) {
    forall i | 0 <= i < |file.groups| :: TruthfulGroup(file.groups[i], file)
  }

  /** On the file's rows the WHERE clause is at least as strict as every pushed filter. */
  ghost predicate Implies(keep: RowTest, filters: seq<Expr>, file: File, engine: Engine) {
    forall i, r, k | 0 <= i < |file.groups| && r in file.groups[i].rows && 0 <= k < |filters| && keep(r) ::
      Eval(filters[k], r, engine).True?
  }

  ghost predicate ListsProviso(filters: seq<Expr>, engine: Engine) {
    forall f | f in filters :: NoEmptyLists(f) || engine.nullInEmpty.Unknown?
  }

  /** A filter that rules a row group out matches none of its rows. */
  lemma RuledOutMissesRow(e: Expr, g: RowGroup, file: File, fields: set<int>, r: Row, engine: Engine)
    requires TruthfulGroup(g, file) && r in g.rows && SuitsRow(e, g, file, r, engine)
    requires NoEmptyLists(e) || engine.nullInEmpty.Unknown?
    requires CanSkip(e, RowGroupStatsSpec(g, file, fields), Some(ProberOf(g, file)))
    ensures !Eval(e, r, engine).True?
  {
    var st := RowGroupStatsSpec(g, file, fields);
    StatsAreFaithful(g, file, fields);
    BloomsAreTruthful(e, g, file, r, engine);
    LessExposedIsHarmless(e, false, (c: int) => Exposed(st, r, c), (c: int) => ExposedIn(g, file, r, c));
    CanSkipIsSound(e, st, Some(ProberOf(g, file)), file.types, g.rows, r, engine);
  }

  lemma RuledOutGroupIsEmpty(g: RowGroup, file: File, filters: seq<Expr>, fields: set<int>, keep: RowTest,
                             engine: Engine)
    requires TruthfulGroup(g, file) && ListsProviso(filters, engine)
    requires forall k, r | 0 <= k < |filters| && r in g.rows :: SuitsRow(filters[k], g, file, r, engine)
    requires forall k, r | 0 <= k < |filters| && r in g.rows && keep(r) :: Eval(filters[k], r, engine).True?
    requires RuledOut(g, file, filters, fields)
    ensures Filter(keep, g.rows) == []
  {
    var k :| 0 <= k < |filters| && CanSkip(filters[k], RowGroupStatsSpec(g, file, fields), Some(ProberOf(g, file)));
    forall r | r in g.rows ensures !keep(r) {
      assert filters[k] in filters;
      RuledOutMissesRow(filters[k], g, file, fields, r, engine);
    }
    FilterNone(keep, g.rows);
  }

  /** Dropping groups without matches drops no match. */
  lemma {:induction false} SurvivorsKeepMatches(groups: seq<RowGroup>, out: RowGroup -> bool, n: nat, keep: RowTest)
    requires n <= |groups|
    requires forall i | 0 <= i < n :: out(groups[i]) ==> Filter(keep, groups[i].rows) == []
    ensures Filter(keep, ReadSome(groups, Survivors(groups, out, n))) == Filter(keep, ReadFirst(groups, n))
  {
    if n > 0 {
      SurvivorsKeepMatches(groups, out, n - 1, keep);
      var before, g := Survivors(groups, out, n - 1), groups[n - 1];
      FilterAppend(keep, ReadFirst(groups, n - 1), g.rows);
      if out(g) {
        assert before + [] == before;
      } else {
        assert (before + [n - 1])[..|before|] == before;
        FilterAppend(keep, ReadSome(groups, before), g.rows);
      }
    }
  }

  /** Filtering what the selected row groups hold gives the rows, and the order, that filtering the whole file gives. */
  lemma SelectionKeepsAnswer(file: File, filters: seq<Expr>, selected: Option<seq<nat>>, keep: RowTest, engine: Engine)
    requires WellFormed(file) && TruthfulFile(file) && SuitsFile(filters, file, engine)
    requires ListsProviso(filters, engine) && Implies(keep, filters, file, engine)
    requires selected.Some? ==> selected.value == Survivors(file.groups, Verdict(file, filters), |file.groups|)
    ensures Filter(keep, Read(file, selected)) == Filter(keep, Read(file, None))
  {
    forall i | 0 <= i < |file.groups| && Verdict(file, filters)(file.groups[i])
      ensures Filter(keep, file.groups[i].rows) == []
    {
      RuledOutGroupIsEmpty(file.groups[i], file, filters, AllFields(filters, file), keep, engine);
    }
    SurvivorsKeepMatches(file.groups, Verdict(file, filters), |file.groups|, keep);
  }

  // ----- Groups that cannot match are really skipped -----

  /** The one column a leaf predicate looks at was written with both bounds, attained by values it can hold. */
  ghost predicate WrittenInFull(g: RowGroup, file: File, c: int, min: StatValue, max: StatValue, nulls: Option<int>)
    requires WellFormed(file)
  {
    && 0 <= c < |file.types| && c < |file.manifest| && file.manifest[c].Leaf?
    && Storable(min, file.types[c]) && Storable(max, file.types[c])
    && !IsNaN(min) && !IsNaN(max) && CmpVal(min, max) <= 0
    && (nulls.Some? ==> nulls.value != |g.rows|)
    && g.chunks(file.manifest[c].col) ==
       Some(ChunkStats(KindOf(Store(min, file.types[c])), nulls,
                       Some(Store(min, file.types[c])), Some(Store(max, file.types[c]))))
  }

  /** A comparison, BETWEEN or IN all of whose literals convert to the column's type. */
  predicate UsableLeaf(e: Expr, dt: DataType) {
    match e
    case Compare(_, _, l) => UsableLiteral(l, dt).Some?
    case Between(_, _, low, high) => UsableLiteral(low, dt).Some? && UsableLiteral(high, dt).Some?
    case InList(_, negated, list) => !negated && forall k | 0 <= k < |list| :: UsableLiteral(list[k], dt).Some?
    case _ => false
  }

  lemma BloomOnlyAdds(e: Expr, st: GroupStats, bloom: Prober)
    requires e.Compare? || e.Between? || e.InList?
    ensures CanSkip(e, st, None) ==> CanSkip(e, st, Some(bloom))
  {
    if e.InList? && !e.negated && CanSkip(e, st, None) && e.column.index in st.cols {
      var cs := st.cols[e.column.index];
      if !ProvablyAllNull(cs, st.numRows) {
        assert forall k | 0 <= k < |e.list| :: InElementAbsent(e.column.index, e.list[k], cs, None);
      }
    }
  }

  /**
   * The other half of selection: a row group none of whose possible values meets a pushed leaf predicate is not read,
   * whatever the other filters are.
   */
  lemma HopelessGroupIsRuledOut(file: File, filters: seq<Expr>, k: nat, g: RowGroup, min: StatValue, max: StatValue,
                                nulls: Option<int>, engine: Engine)
    requires WellFormed(file) && k < |filters| && EngineAgrees(engine, file.types)
    requires filters[k].Compare? || filters[k].Between? || filters[k].InList?
    requires KnownColumn(filters[k].column, file)
    requires WrittenInFull(g, file, filters[k].column.index, min, max, nulls)
    requires UsableLeaf(filters[k], file.types[filters[k].column.index])
    requires forall row | CellAt(row, filters[k].column.index).Val?
             && Within(CellAt(row, filters[k].column.index).v, (min, max)) ::
               !Eval(filters[k], row, engine).True?
    ensures Verdict(file, filters)(g)
  {
    var e, c := filters[k], filters[k].column.index;
    var st := RowGroupStatsSpec(g, file, AllFields(filters, file));
    assert Mentions(filters[k], e.column);
    AllFieldsAreReferenced(filters, file, c);
    AdapterLosesNothing(min, max, nulls, file.types[c]);
    var counted := if nulls.Some? && nulls.value > 0 then nulls else None;
    assert st.cols[c] == ColStats(file.types[c], Some((min, max)), counted);
    LeafSkipsExactly(e, st, file.types, engine);
    BloomOnlyAdds(e, st, ProberOf(g, file));
    assert CanSkip(filters[k], st, Some(ProberOf(g, file)));
  }
}
