# datafusion-golang: pushdown, projection, inserts and protocols, verified

This project models the parts of `datafusion-golang` that a query's answer depends on, and proves that they keep it.
`dafny verify dfyconfig.toml` checks everything.

## What is modelled

**A. Row-group pruning.** `Skip` is the evaluator that decides from min/max, null counts and bloom answers that no row of
a Parquet row group can match; `SkipSoundness` proves it sound for every predicate tree, and as precise as its inputs
allow. `Values` holds three-valued logic and the comparison; `Predicates` the bounded AST and its meaning on a row.
`Stats` and `Bloom` turn what a file holds into the evaluator's view. `RowGroups` selects row groups, `Projection` and
`Limit` shape what is read, and `Scan` is a whole scan.

**B. The predicate pipeline.** `Pushdown` recognizes engine expressions, `Wire` carries them through JSON (with `Base64`),
`IcebergConvert` turns them into Iceberg row filters. `EndToEnd` runs one query through all of it: recognize, serialize,
decode, select, project, read, filter again. `ZeroedFloats` and `NonFinite` settle what happens to float literals JSON
cannot carry: which predicates only get weaker, and when the answer changes.

**C. Inserts.** `MemStore` and `LocalStore` are the two built-in backends, `Commit` their contract over any run of any
number of writers, `Backends` the proof that the two follow it, `Insert` the rewrite that commits on Close, `InsertRuns`
any number of concurrent inserts.

**D. Protocols, step by step, in every interleaving.** `Registry` and `RegistryRuns` (single-flight `Resolve`),
`SeqReader` (the Iceberg producer goroutine), `InsertBridge` (the bounded channel from Rust to Go), `Session` (draining).
Each is a step function over a state, a run is any sequence of possible steps, and a main result speaks about all runs.

A `char` stands for one byte throughout, so Go strings and byte slices are `seq<char>`.

## Hypotheses

The code relies on these and does not establish them. They appear as named predicates.

- `SkipSoundness.Faithful`: a present null count is the true one, and bounds (possibly loose) bracket every non-null value
  other than NaN. `Stats` derives it from what a writer put down, exactly under `Stats.SafeBounds`: both bounds or neither
  written, or only the maximum in a domain whose zero value is its least.
- `RowGroups.SuitsFile`: on the rows of the file and the literals pushed, where a literal is of the column's kind, the
  engine orders the row's value against the value that denotes the same as the literal (`Values.Below`), with NaN the
  greatest float; and where a row holds a NaN in a column that has bounds, every pushed leaf on that column is one that
  fails on NaN. An engine that orders the two zeros meets this on rows and literals without a negative zero. Elsewhere
  the engine's order is arbitrary.
- `RowGroups.ListsProviso`: a pushed IN list is not empty, or NULL IN () is NULL for the engine. Iceberg does not need it.
- `EndToEnd.TypedPushed`: in the conjuncts that are pushed, literals fit their Rust types.
- `EndToEnd.HarmlessPushed`: a pushed leaf with a NaN or an infinity is a test of a float column that only gets weaker
  when it is replaced by zero. Finite floats, and every other literal, always meet this
  (`ZeroedFloats.UnchangedIsHarmless`).
- `EndToEnd.SuitsTable`, for Iceberg: for the conjuncts that are kept, iceberg-go decides this row against these literals
  as the engine does, operator by operator; the two have comparators of their own. Where a literal is NaN or infinite,
  the conjunct is harmless as above and both are in the float order. A conjunct that is dropped needs nothing.
- `Bloom.HoldsAll`: a bloom filter contains every value stored in its column.
- A limit hint never comes together with filters; `Scan.ScanWithOptions` claims nothing about the combination.

All but the bloom contract and `TypedPushed`, which Rust's types establish, are shown to be needed, by a concrete input
or as one half of an equivalence: `Stats.AdapterFaithfulIffSafe`, `SkipSoundness.NaNRowsNeedProviso`,
`SkipSoundness.OrderedZerosNeedProviso`, `SkipSoundness.EmptyListProvisoIsExact`,
`NonFinite.FloatTestKeepsAnswerIffHarmless`, `NonFinite.FloatTestScanKeepsAnswerIffHarmless`,
`NonFinite.IeeeScanKeepsAnswerIff`, `Limit.LimitBeforeFiltersLoses`.

## Where the code departs from its documentation

The model follows the code.

- `ScanOptions` promises every provider that pushed filters never change a result. A float literal that is NaN or
  infinite is written as JSON null and silently read back as 0.0, so `a < 'Infinity'` reaches the provider as `a < 0.0`.
  A pushed test of a float column keeps every answer exactly when zero instead lets everything through that the test
  itself does. This is one condition for both providers, `ZeroedFloats.HarmlessTest`:
  - a comparison: `>` and `>=` with +Infinity or NaN, `<` and `<=` with -Infinity;
  - BETWEEN: the interval is empty, or neither bound moves inwards; NOT BETWEEN: the interval that arrives is empty, or
    neither bound moves outwards;
  - IN: never; NOT IN: when zero is in the list anyway.

  So `a = 'NaN'` loses NaN rows on both providers: on Parquet when the bounds that leave them out exclude zero. For
  Parquet this is `NonFinite.FloatTestKeepsAnswerIffHarmless`, over all files the query theorem admits; for Iceberg
  `NonFinite.FloatTestScanKeepsAnswerIffHarmless`, where a conjunct that does not convert or bind is dropped and harmless.
  Whole predicates keep their answers when every leaf is unchanged or such a test (`ZeroedFloats.HarmlessArrives`).
- A chunk with only one bound written decodes the other as zero; only a pair with min > max is dropped. A group whose
  one written bound is consistent with zero is then pruned on a bound nobody wrote. `Stats.SafeBounds` is the exact
  condition under which the decoded statistics are right (`Stats.AdapterFaithfulIffSafe`).
- `Register` says that registering a scheme again replaces the opener and clears the stores cached for it. An open in
  flight survives it and caches the replaced opener's store afterwards. It does what it says for
  its scheme exactly when no open of the scheme is in flight with an opener other than the new one, whatever happened to
  other schemes and before (`RegistryRuns.RegisterRefreshesExactly`).
- `SessionContext.Close` says that it waits for in-flight calls. Only the Close that wins the swap does. A given Close
  can return while a query is inside the engine exactly when there is a query and another call closes too
  (`Session.CloseReturnsEarlyIffRivalled`).

## Model

| member | source | states |
|---|---|---|
| Values.CompareBytesFlips | providers/parquet/skip.go:50-91 | Lexicographic byte order is antisymmetric, and equal means identical |
| Values.CompareBytesTransitive | providers/parquet/skip.go:50-91 | Lexicographic byte order is transitive |
| Values.TotalCmpFlips | providers/parquet/skip.go:50-91 | In every domain the comparison reverses its sign when its operands are exchanged |
| Values.TotalCmpTransitive | providers/parquet/skip.go:50-91 | In every domain the comparison is transitive |
| Values.CmpValPreorderIffNoNaN | providers/parquet/skip.go:50-93 | `cmpVal` is a total preorder around a value if and only if the value is not NaN, which is why NaN is kept out of it |
| Values.CompareBytesIsLexicographic | providers/parquet/skip.go:50-91 | Negative exactly when, after a common prefix, the first ends or has the smaller byte |
| Values.TotalCmpIsOrder | providers/parquet/skip.go:50-91 | The sign is the order of the domain, both ways: false before true, numbers by size, bytes lexicographically, NaN last |
| Values.TruthIsKleene | datafusion/expr.go:255-285 | AND, OR and NOT of predicates are minimum, maximum and reversal on false, unknown, true |
| Skip.LiteralValueExact | providers/parquet/skip.go:339-420 | A literal converts if and only if it is of the column's kind, signedness and timestamp unit included, and then to the one value that denotes the same |
| Skip.NegateDescends | providers/parquet/skip.go:122-174 | De Morgan makes the tree larger, yet the weight in which NOT doubles its operand strictly decreases, so `canSkip` terminates |
| SkipSoundness.NegateIsNot3 | providers/parquet/skip.go:147-193 | `negate(e)` evaluates to the three-valued NOT of `e` on every row, for every operator and node |
| SkipSoundness.RangeRefutesExactly | providers/parquet/skip.go:208-252 | For each of the six operators the range test holds if and only if no value inside the bounds satisfies the comparison |
| SkipSoundness.SkippedCompareFails | providers/parquet/skip.go:208-252 | A skipped comparison (all null, refuted by range, or absent from the bloom filter) is TRUE on no row |
| SkipSoundness.SkippedBetweenFails | providers/parquet/skip.go:267-293 | A skipped [NOT] BETWEEN, inverted bounds included, is TRUE on no row |
| SkipSoundness.SkippedInListFails | providers/parquet/skip.go:295-337 | A skipped [NOT] IN, element by element through range or bloom, is TRUE on no row |
| SkipSoundness.CanSkipIsSound | providers/parquet/skip.go:122-337 | For every tree, row group and row: if `canSkip` says yes, the predicate is not TRUE on the row; the engine's order matters only for this row and these literals, and NaNs outside bounds only to leaves that NaN can meet |
| SkipSoundness.EmptyListProvisoIsExact | providers/parquet/skip.go:295-324 | On every all-null column IN () and NOT IN () are skipped, which is right exactly for engines in which NULL IN () is NULL |
| SkipSoundness.NaNRowsNeedProviso | providers/parquet/skip.go:204-252 | Bounds that leave out a NaN row never make the evaluator skip a row that matches if and only if the operator is =, < or <= |
| SkipSoundness.OrderedZerosNeedProviso | providers/parquet/skip.go:50-91 | Against an engine that orders the two zeros, a negative zero literal makes the evaluator skip a row the engine keeps |
| SkipSoundness.LeafSkipsExactly | providers/parquet/skip.go:208-337 | With usable literals and statistics, a compare, BETWEEN or IN leaf is skipped if and only if no row the statistics allow satisfies it |
| SkipSoundness.LeafRulesExact | providers/parquet/skip.go:208-337 | Every leaf is skipped if and only if its column is all null, no value within the bounds passes (or BETWEEN is turned round), or the filter denies what equality asks for; said with the order and the denotations alone |
| SkipSoundness.NullTestSkipsExactly | providers/parquet/skip.go:254-265 | With a known null count, IS [NOT] NULL is skipped if and only if no row satisfies it |
| SkipSoundness.NnfKeepsMeaning | providers/parquet/skip.go:147-193 | Pushing every NOT to the leaves keeps the three-valued meaning |
| SkipSoundness.CanSkipReadsNormalForm | providers/parquet/skip.go:122-145 | On-the-fly De Morgan decides exactly as leaf-by-leaf evaluation of the negation normal form would |
| Stats.ReinterpretInvertsStore | providers/parquet/stats.go:80-128 | Reading a stored bound back, unsigned integers from signed bits included, gives the value written |
| Stats.DecodesItsKind | providers/parquet/stats.go:80-128 | A bound decodes if and only if it has the physical kind the column's values are stored with |
| Stats.SafeBoundsSuffice | providers/parquet/stats.go:61-74 | Truthful chunk statistics with safe bounds become faithful column statistics |
| Stats.UnsafeBoundsLie | providers/parquet/stats.go:58-74 | For every unsafe one-sided chunk there are rows it is true of and its decoded range is not |
| Stats.AdapterFaithfulIffSafe | providers/parquet/stats.go:45-74 | The adapter is faithful on all rows if and only if the bounds are safe; an omitted null count proves nothing |
| Stats.AdapterLosesNothing | providers/parquet/stats.go:61-74 | Fully written statistics arrive whole: both bounds, and the null count when positive |
| Stats.NullCountUsedExactly | providers/parquet/stats.go:45-60 | A null count is used if and only if it was written and is positive |
| Stats.UsedBoundsAreOrdered | providers/parquet/stats.go:61-74 | Bounds that are used are in order, not NaN, and not both omitted |
| Stats.OneBoundReadsZero | providers/parquet/stats.go:58-74 | One written bound is paired with the zero of the column's domain, and the pair is used exactly when it is in order |
| Bloom.RowGroupBloomProber.FilterFor | providers/parquet/bloom.go:52-76 | With the lazily opened reader and the cache, every call of every sequence yields this leaf's own filter, and none if the reader does not open |
| Bloom.RowGroupBloomProber.Absent | providers/parquet/bloom.go:31-50 | Absent if and only if the field is a leaf, the literal has a probe, a filter exists and it denies the probe |
| Bloom.ProbeMatchesExactly | providers/parquet/bloom.go:78-128 | A stored value has the probe's bits exactly when it equals the literal in the evaluator's order |
| Bloom.ProbedExactly | providers/parquet/bloom.go:78-128 | Probed are exactly the literals of the column's kind that are not floats or booleans and fit its physical width |
| Bloom.MatchableLiteralsAreProbed | providers/parquet/bloom.go:78-128 | A literal that some stored value equals is probed, as the bits of that value; only floats and booleans are not |
| Bloom.FloatProbesWouldMiss | providers/parquet/bloom.go:78-128 | Two equal floats are stored differently, so a float probe would have false negatives |
| Bloom.AbsentIsTruthful | providers/parquet/bloom.go:31-50 | An absent answer implies that no row's value equals the literal |
| RowGroups.ReferencedFields | providers/parquet/pushdown.go:151-187 | A field is collected if and only if some leaf of some filter names it, by an index and a name that agree with the schema |
| RowGroups.BuildRowGroupStats | providers/parquet/stats.go:16-43 | An entry for exactly the referenced leaf fields whose chunk statistics convert, and the row count |
| RowGroups.SkipsGroup | providers/parquet/pushdown.go:130-141 | One provably empty conjunct, by the group's own statistics and filters, rules the group out |
| RowGroups.SelectRowGroups | providers/parquet/pushdown.go:115-149 | The surviving groups in order; nil if and only if no field is referenced or nothing was skipped |
| RowGroups.SurvivorCount | providers/parquet/pushdown.go:145-148 | As many survivors as groups if and only if no group is ruled out, so nil loses nothing |
| RowGroups.SurvivorsExactly | providers/parquet/pushdown.go:130-144 | A group is selected if and only if it is not ruled out, and the selection ascends |
| RowGroups.SurvivorsKeepMatches | providers/parquet/pushdown.go:115-149 | Leaving out groups without matches leaves the filtered row sequence, and its order, unchanged |
| RowGroups.ReadInOrder | providers/parquet/pushdown.go:115-149 | The rows of a file come group after group |
| RowGroups.ReadSelected | providers/parquet/pushdown.go:115-149 | So do those of selected groups |
| RowGroups.FilterIsExact | datafusion/table.go:55-60 | The re-applied filter keeps each row that passes as often as it occurs, and no other |
| RowGroups.SelectionReadsSurvivors | providers/parquet/pushdown.go:115-149 | What is read is exactly the rows of the groups not ruled out, also when the selection is nil |
| RowGroups.AgreeingEngineSuits | providers/parquet/skip.go:50-91 | An engine that orders every domain as `cmpVal` does, NaN greatest, suits every file whose bounds leave out no NaN, whatever is pushed |
| RowGroups.SelectionKeepsAnswer | providers/parquet/pushdown.go:115-149 | Filtering the selected groups gives the row sequence that filtering the whole file gives |
| RowGroups.HopelessGroupIsRuledOut | providers/parquet/pushdown.go:115-149 | A fully written group none of whose possible values meets a pushed compare, BETWEEN or IN is really skipped |
| Schema.FieldLeavesComplete | providers/parquet/pushdown.go:189-201 | The leaves under a field, at any depth: none missed, none made up, none repeated |
| Schema.LeavesInOrder | providers/parquet/pushdown.go:189-201 | Leaves come in schema order, those of one field together |
| Projection.FieldIndicesAppend | providers/parquet/pushdown.go:80-100 | Asking for one more field's leaves, nested ones included, adds exactly that column to the read order |
| Projection.ReadPlan | providers/parquet/pushdown.go:80-97 | Duplicates are read once, in the order the file reader yields, with every leaf of every wanted field, and every wanted column is found in what is read |
| Projection.OpenProjectedReader | providers/parquet/pushdown.go:60-113 | For any indices, in any order and with duplicates, cell i of each delivered row is cell projection[i] of that row, batch for batch; an error if and only if an index is out of range |
| Projection.ProjectedReader.constructor | datafusion/table.go:260-281 | Wraps a reader of rows of a schema and indices within that schema, outside of which the source panics |
| Projection.ProjectedReader.Next | datafusion/table.go:285-302 | Delivers the next batch, cell by cell through the indices, and releases the previous one once; at the end it holds nothing |
| Projection.ProjectedReader.Retain | datafusion/table.go:311-311 | Takes one more reference of the wrapped reader |
| Projection.ProjectedReader.Release | datafusion/table.go:313-319 | Every batch made has then been released exactly once, and the wrapped reader has one reference less |
| Projection.ReadAll | datafusion/table.go:285-302 | Reading to the end delivers every batch with its cells picked by the indices, and leaves none unreleased |
| Projection.TwiceProjected | datafusion/table.go:260-302 | Projecting a projection is the projection through the composed indices |
| Projection.SortInts | providers/iceberg/pushdown.go:88-92 | The same indices, ascending |
| Projection.SelectsAscending | providers/iceberg/pushdown.go:92-100 | Selecting by name and reading in schema order yields the sorted positions |
| Projection.ProjectionPlan | providers/iceberg/pushdown.go:68-112 | Schema-order read then permutation gives column projection[i] at i; no permutation if and only if the projection ascends strictly |
| Projection.AscendingIsIdentity | providers/iceberg/pushdown.go:100-112 | The inverse permutation is the identity exactly for a strictly ascending projection |
| Limit.LimitReader.Next | providers/parquet/pushdown.go:248-264 | Each call delivers the next batch of the limited prefix, and stops at its end |
| Limit.Drain | providers/parquet/pushdown.go:248-264 | Reading to the end delivers exactly the limited prefix |
| Limit.LimitPrefixIsShortest | providers/parquet/pushdown.go:248-264 | That prefix is the shortest one with at least n rows, or everything |
| Limit.LimitRefinesTake | providers/parquet/pushdown.go:248-264 | Its first n rows are the first n rows of the full scan |
| Limit.LimitBeforeFiltersLoses | datafusion/table.go:60-66 | With filters still to apply, the hint would lose a match, so the two must not come together |
| Scan.ScanWithOptions | providers/parquet/pushdown.go:17-55 | Delivered are the rows of exactly the groups not ruled out, cells picked by the projection, cut at the limit; the engine's filter gives the answer of the whole table, or the limit its first rows |
| Scan.FilterProjected | providers/parquet/pushdown.go:57-113 | Filtering commutes with projecting |
| Scan.FlattenDelivered | providers/parquet/pushdown.go:57-113 | Projecting batch by batch projects the rows, whatever the batch boundaries |
| Pushdown.IndexOf | rust/datafusion-c-abi/src/pushdown.rs:229-240 | The first field of the name, or none has it |
| Pushdown.LiteralKeepsValue | rust/datafusion-c-abi/src/pushdown.rs:249-289 | A scalar becomes a literal exactly when it has a value the AST can name, and keeps it |
| Pushdown.ClassifyKeepsMeaning | rust/datafusion-c-abi/src/pushdown.rs:132-199 | A recognized expression, mirrored comparisons included, means on every row what the engine means |
| Pushdown.ClassifyRecognizesCovered | rust/datafusion-c-abi/src/pushdown.rs:132-199 | Recognized if and only if built from the covered forms over columns and non-null literals |
| Base64.DecodeInvertsEncode | rust/datafusion-c-abi/src/pushdown.rs:249-289 | Go's decoding (section 4 of RFC 4648) inverts Rust's encoding for every byte sequence |
| Wire.DecodeFilters | datafusion/expr.go:296-314 | All filters in order, or an error if any fails |
| Wire.LiteralRoundTrip | datafusion/expr.go:105-239 | Every literal type decodes, to itself if and only if it is not NaN or infinite |
| Wire.PredicateArrives | datafusion/expr.go:316-404 | A predicate of any depth decodes, to what it says with every NaN and infinity replaced by zero |
| Wire.NamesAreExact | datafusion/expr.go:105-239 | Each operator, unit and width is read from its own name and from no other |
| Wire.LiteralReadExactly | datafusion/expr.go:105-239 | A document is read as a literal if and only if it names the literal's type and has its value, or null for zero, within its Go type, and a timestamp's unit and zone |
| Wire.FieldsRead | datafusion/expr.go:316-404 | Of repeated members the last counts, and an absent or null field is the zero value |
| Wire.DecodedFits | datafusion/expr.go:316-404 | Whatever document a predicate is read from names its kind and operator, and everything in it fits; anything else is an error |
| Wire.PredicateRoundTrip | datafusion/expr.go:316-404 | A predicate of any depth decodes, to exactly itself if and only if all its floats are finite |
| Wire.FiltersRoundTrip | rust/datafusion-c-abi/src/pushdown.rs:201-215 | The document is absent exactly when nothing is recognized; otherwise decoding it gives the recognized list |
| ZeroedFloats.HarmlessExactly | datafusion/table.go:55-60 | For a comparison, BETWEEN or IN with any floats, under any NOTs: the stated condition holds if and only if, for every float including NaN, what arrives lets through what the test does |
| ZeroedFloats.HarmlessArrives | datafusion/table.go:55-60 | For a predicate of any depth whose leaves are unchanged or such tests: on every row what arrives accepts what the engine accepts |
| ZeroedFloats.UnchangedIsHarmless | datafusion/table.go:55-60 | A predicate of any depth that arrives unchanged is harmless, wherever a NOT stands above it |
| ZeroedFloats.HarmlessTreeOfTest | datafusion/table.go:55-60 | On a single test the condition for whole predicates is the exact one |
| EndToEnd.PushedAreRecognized | rust/datafusion-c-abi/src/table.rs:100-125 | The conjuncts the planner pushes serialize to the same document as all conjuncts |
| EndToEnd.SupportIffCovered | rust/datafusion-c-abi/src/table.rs:100-125 | Support is announced for exactly the covered forms, and never as exact |
| EndToEnd.RecognizedCons | rust/datafusion-c-abi/src/pushdown.rs:201-215 | Each recognized conjunct is serialized, in order, and no other |
| EndToEnd.PushedArrives | datafusion/expr.go:296-404 | What the provider decodes is the list of recognized conjuncts with NaN and infinities as zero; unrecognized conjuncts may hold anything |
| EndToEnd.DecodedFilters | datafusion/expr.go:296-404 | On every row the WHERE clause implies each decoded filter, non-finite floats included where they are harmless |
| EndToEnd.Query | providers/parquet/pushdown.go:17-55 | Classify, JSON, decode, select, project, read, filter again: the rows and order of filtering the whole file, cell i of each being cell projection[i], with harmless non-finite floats as well |
| EndToEnd.IcebergDelivers | providers/iceberg/pushdown.go:45-65 | Selected fields in schema order, then the permutation: cell i of each row is cell projection[i], or an error if and only if an index is out of range |
| EndToEnd.IcebergQuery | providers/iceberg/pushdown.go:21-66 | The same for an Iceberg scan under the converted row filter, with a comparator of iceberg-go's own and empty IN lists included |
| NonFinite.HarmlessKeepsAnswer | providers/parquet/pushdown.go:115-149 | Where zero instead only lets more through, every Parquet file that suits the pushed test keeps its answer, NaNs outside bounds included |
| NonFinite.HarmfulChangesAnswer | providers/parquet/pushdown.go:115-149 | Everywhere else, in any schema, some such file loses a matching row |
| NonFinite.FloatTestKeepsAnswerIffHarmless | providers/parquet/pushdown.go:115-149 | For Parquet, exactly which [NOT] comparisons, BETWEENs and INs with floats keep the answer of every file that suits them |
| NonFinite.InfinityChangesTheAnswer | datafusion/table.go:55-60 | The instance a < 'Infinity' on a Parquet file |
| NonFinite.HarmlessScanKeepsAnswer | providers/iceberg/pushdown.go:21-66 | Where zero instead only lets more through, or the conjunct is dropped, every Iceberg table keeps its answer |
| NonFinite.HarmfulScanChangesAnswer | providers/iceberg/pushdown.go:21-66 | Everywhere else some Iceberg table loses a matching row |
| NonFinite.FloatTestScanKeepsAnswerIffHarmless | providers/iceberg/convert.go:35-52 | For Iceberg, exactly which of these tests keep the answer of every table: the same ones, and those that are dropped |
| NonFinite.IeeeScanKeepsAnswerIff | providers/iceberg/convert.go:35-101 | If iceberg-go let NaN satisfy <> alone, a kept test with finite floats would keep every answer if and only if it is not >, >= or NOT BETWEEN under an even number of NOTs |
| IcebergConvert.ScaleTimestampExact | providers/iceberg/convert.go:310-317 | A timestamp is accepted if and only if its microseconds fit in 64 bits, for both signs |
| IcebergConvert.ConvertLiteralExact | providers/iceberg/convert.go:239-317 | A literal converts if and only if Iceberg can hold it, then to the same value within its Go type |
| IcebergConvert.ConvertInList | providers/iceberg/convert.go:135-174 | An IN list converts when it is not empty and all elements convert to one Go type |
| IcebergConvert.ConvertsIffTranslatable | providers/iceberg/convert.go:54-174 | Only an unrepresentable literal or an empty or mixed list stops a conversion, anywhere in the tree |
| IcebergConvert.ConvertKeepsMeaning | providers/iceberg/convert.go:54-237 | Identical three-valued meaning at every node, where the two comparators agree on this row and these literals |
| IcebergConvert.ConvertFilters | providers/iceberg/convert.go:35-52 | The conjunction of what converts and binds, other conjuncts dropped whole |
| IcebergConvert.ConjunctionIsKeptConjuncts | providers/iceberg/convert.go:35-52 | The scan keeps a row if and only if every kept conjunct is TRUE on it; nil exactly when none is kept |
| IcebergConvert.ConversionNeverNarrows | providers/iceberg/convert.go:35-101 | A row that every pushed filter accepts is scanned; the comparators need to agree only on what is kept |
| MemStore.OnceGuard.Begin | objectstore/writeguard.go:9-19 | True exactly the first time |
| MemStore.MemStore.Open | objectstore/mem.go:35-43 | The stored bytes at that moment, or not found |
| MemStore.MemStore.Create | objectstore/mem.go:53-55 | A fresh empty writer; nothing stored changes |
| MemStore.MemStore.Remove | objectstore/mem.go:88-96 | The path is gone and every other object stays; false if it was not there |
| MemStore.MemWriter.Write | objectstore/mem.go:57-64 | Appends to the writer's own buffer; no stored byte and no open object changes |
| MemStore.MemWriter.Close | objectstore/mem.go:66-81 | Only a first Close stores, exactly the written bytes, in an array of their own |
| MemStore.MemWriter.Abort | objectstore/mem.go:83-86 | Nothing stored changes, and no later Close will |
| LocalStore.LocalWriter.constructor | objectstore/local.go:71-75 | A new empty temp file; every other file stays |
| LocalStore.Create | objectstore/local.go:66-76 | A writer with an empty temp file, or an error and nothing changed |
| LocalStore.FileSystem.Remove | objectstore/local.go:119-127 | The path is gone and every other file stays, or the call fails and everything stays |
| LocalStore.LocalWriter.Write | objectstore/local.go:84-84 | Only the temp file grows, possibly in part; nothing after Close |
| LocalStore.LocalWriter.Close | objectstore/local.go:86-109 | The first Close publishes the whole temp file, or leaves the target and removes the temp file; later ones do nothing |
| LocalStore.LocalWriter.Abort | objectstore/local.go:111-117 | The temp file is removed and the target stays; nothing after a Close |
| Commit.RunShowsVisible | objectstore/store.go:66-81 | Over any run of any writers a path holds what its latest committing first Close wrote before it, unless removed |
| Commit.SpentWriterIsInert | objectstore/writeguard.go:3-19 | Write, Abort and any Close after the first never change an object |
| Backends.MemStep | objectstore/mem.go:53-96 | Each call on the in-memory store and its writers, which share nothing, does what the contract's step says |
| Backends.MemRun | objectstore/mem.go:26-96 | After any calls on any writers a new store shows at each path what the contract says |
| Backends.LocalStep | objectstore/local.go:66-127 | Each call on the local store, whatever system call fails, does what the contract's step says to everything but temp files |
| Backends.LocalRun | objectstore/local.go:66-127 | After any calls on any writers, with any system calls failing, the directory shows at each path what the contract says |
| Insert.EncodeIsReadable | providers/parquet/insert.go:124-131 | A finished object reads back the batches written, in order |
| Insert.OnlyCompleteIsReadable | providers/parquet/insert.go:124-131 | Nothing but a complete object can be read |
| Insert.StreamExistingRows | providers/parquet/insert.go:147-165 | All old rows, or an error exactly when the scan or a write fails |
| Insert.CountIsExact | providers/parquet/insert.go:118-118 | The 64-bit count is the number of rows exactly when that fits |
| Insert.Fill | providers/parquet/insert.go:87-131 | A complete object of the kept and the new rows, counted in 64 bits, or an error exactly when input, scan or a write fails |
| Insert.Rewrite | providers/parquet/insert.go:83-144 | One complete object replaces the old one, or every object stays and the temp file is removed |
| Insert.InsertInto | providers/parquet/insert.go:41-81 | Success if and only if nothing needed fails, said fault by fault; then a scan finds the old batches and the new (Append) or the new only (Overwrite, the empty input included), counted; an append of nothing touches nothing, and after an error every object is as it was |
| Insert.InsertedRowsAreRead | providers/parquet/insert.go:41-81 | A scan after success reads the old rows, if kept, then exactly the delivered ones |
| InsertRuns.InsertAlone | providers/parquet/insert.go:41-144 | The serial reference below is what a successful `InsertInto` leaves readable, and a failed one leaves what was |
| InsertRuns.StepKeepsInv | providers/parquet/insert.go:60-144 | Every step of every insert keeps: one holder at most, and the table is the replay of what was published |
| InsertRuns.InsertsAreSerializable | providers/parquet/insert.go:60-144 | In every interleaving, with failures anywhere, the table is the replay in commit order of exactly the successful inserts, and each counts its rows |
| InsertRuns.ErrorsHaveCauses | providers/parquet/insert.go:60-144 | An insert returns an error if and only if its op is neither Append nor Overwrite, its input fails or one of its own steps failed |
| InsertRuns.WhoCanMove | providers/parquet/insert.go:60-144 | Inserts wait for each other only at the lock, and the holder may fail anywhere before it commits |
| InsertRuns.InsertsNeverStuck | providers/parquet/insert.go:67-68 | Until every insert has returned, some insert can take a step |
| Registry.CacheKeyInjective | objectstore/registry.go:112-112 | With the scheme grammar of section 3.1 and the authority of section 3.2 of RFC 3986, equal keys mean equal scheme, host and query |
| Registry.QuestionMarkInHostCollides | objectstore/registry.go:112-112 | Without that grammar two locations can share a key |
| Registry.PrefixIsScheme | objectstore/registry.go:77-82 | For a scheme without colon the prefix test selects exactly the keys of the scheme |
| Registry.RegistryState.Register | objectstore/registry.go:70-84 | The opener is replaced and exactly the scheme's cached stores go; a reserved scheme changes nothing |
| Registry.RegistryState.LookUp | objectstore/registry.go:115-135 | Hit, wait, unregistered or lead, and only a leader marks the key in flight |
| Registry.RegistryState.Settle | objectstore/registry.go:144-149 | The key is no longer in flight; a success is cached |
| RegistryRuns.StepKeepsInv | objectstore/registry.go:70-156 | Every step keeps each key out of the cache while in flight, and led by one goroutine |
| RegistryRuns.EnterDecides | objectstore/registry.go:115-135 | On the tables: a cached store is returned, a key in flight is waited for, an unregistered scheme is refused, otherwise the key is opened with the scheme's opener |
| RegistryRuns.RegisterDecides | objectstore/registry.go:70-84 | On the tables: the scheme's opener is replaced and exactly its cached stores go, opens in flight stay; "" and "file" change nothing |
| RegistryRuns.SettleDecides | objectstore/registry.go:144-149 | On the tables: the key is no longer in flight, and exactly a success is cached |
| RegistryRuns.UnregisteredExactly | objectstore/registry.go:115-135 | In every run a Resolve answers "unregistered" if and only if, as it entered, its key was neither cached nor in flight and its scheme had no opener |
| RegistryRuns.WhoCanMove | objectstore/registry.go:115-156 | In every reachable state only a waiting goroutine depends on another, on the `done` of its own call |
| RegistryRuns.OneFlightPerKey | objectstore/registry.go:97-156 | In every interleaving, with schemes as section 3.1 of RFC 3986 has them: never cached and in flight, one opener at a time per key, and a key opened successfully is opened again only after that key's own scheme was registered again |
| RegistryRuns.AnswersAreTheLeaders | objectstore/registry.go:121-128 | Every answer is what one opener call for the same scheme, host and query returned, the same for its leader and all waiters |
| RegistryRuns.NeverStuck | objectstore/registry.go:121-156 | Until every Resolve has returned, some goroutine can move without help from Register |
| RegistryRuns.StepsAreBounded | objectstore/registry.go:97-156 | Each Resolve takes at most four steps, so all of them return |
| RegistryRuns.RegisterRefreshesExactly | objectstore/registry.go:60-84 | From every reachable state, Register leaves everything of its scheme, cached or being opened, to the opener it registers, if and only if no open of the scheme is in flight with another one |
| RegistryRuns.RegisterKeepsAllFresh | objectstore/registry.go:60-84 | So a registry that is wholly up to date stays so under the same condition |
| RegistryRuns.RunStaysFresh | objectstore/registry.go:60-156 | In a run without such an overtaking, everything cached or being opened is the current opener's |
| RegistryRuns.CacheHitsAreCurrent | objectstore/registry.go:115-120 | In such a run a Resolve answered from the cache gets a store of the opener registered for its scheme at that moment |
| RegistryRuns.OvertakenOpenStaysCached | objectstore/registry.go:60-156 | In a run with one, a later Resolve gets the replaced opener's store |
| SeqReader.StepKeepsInv | providers/iceberg/reader.go:41-115 | Every step keeps release counts, order and control state |
| SeqReader.ReferencesAreCounted | providers/iceberg/reader.go:93-98 | There is one reference plus those retained less those released, and the drain starts exactly when none is left |
| SeqReader.WhoCanMove | providers/iceberg/reader.go:41-115 | Which of the producer's and the callers' steps are possible in each reachable state, Retain and Next while a reference is held |
| SeqReader.BatchesAreConserved | providers/iceberg/reader.go:41-115 | In every interleaving each record handed on has been released exactly once or is the current batch; no other has |
| SeqReader.ConsumerSeesPrefix | providers/iceberg/reader.go:62-82 | Next yields the items in order, stops with an error exactly at the first item that has one, and ends cleanly only after all |
| SeqReader.EndIsSeenExactly | providers/iceberg/reader.go:62-74 | Next reports a clean end if and only if it found the channel closed |
| SeqReader.LastReleaseCleansUp | providers/iceberg/reader.go:95-115 | After the last Release the producer has terminated, everything it pulled is released once, and nothing can happen any more |
| SeqReader.LastReleaseReturns | providers/iceberg/reader.go:95-115 | From any state the drain ends within 2 * items + 2 steps of any schedule, and cannot wedge before |
| InsertBridge.StepKeepsInv | rust/datafusion-c-abi/src/table.rs:241-296 | Every step keeps capacity, order and the completeness of a clean end |
| InsertBridge.WhoCanMove | rust/datafusion-c-abi/src/table.rs:241-296 | Which steps are possible in each reachable state; the pump sends exactly while fewer than eight items wait |
| InsertBridge.BridgeKeepsOrder | rust/datafusion-c-abi/src/table.rs:184-227 | The channel never exceeds its capacity, and Go has received an in-order prefix that the channel continues |
| InsertBridge.SuccessIsComplete | rust/datafusion-c-abi/src/table.rs:277-296 | `write_all` returns only after the pump ended, with success if and only if Go succeeded and the pump did not die; a consumer that read to the end has the whole input |
| InsertBridge.DeadPumpLooksLikeEnd | rust/datafusion-c-abi/src/table.rs:277-296 | To Go a dead pump is an ordinary end of input, which only the join exposes |
| InsertBridge.BridgeAlwaysFinishes | rust/datafusion-c-abi/src/table.rs:241-296 | Every schedule is bounded, a reading consumer is always served, and a returned one lets `write_all` return |
| Session.StepKeepsInv | datafusion/session.go:47-82 | Every step keeps one closer at most and no reader beside the write lock's holder |
| Session.RepliesAreTrue | datafusion/session.go:47-82 | A query returns a result if and only if it was in the engine, and a call is turned away if and only if it looked at `closed` and it was set |
| Session.WhoCanMove | datafusion/session.go:47-82 | A new query waits for writers, a writer for readers, the finalizer for everybody |
| Session.SessionDrains | datafusion/session.go:47-82 | In every interleaving the handle is freed at most once, never while a call is in the engine, and the closing Close returns to an empty engine |
| Session.FreedExactlyOnce | datafusion/session.go:47-82 | Every schedule has at most 5 * calls + 1 steps, and when nothing more can happen all calls have returned and the handle was freed exactly once, by Close or by the finalizer |
| Session.CloseReturnsEarlyIffRivalled | datafusion/session.go:57-72 | A given Close can return while a query is in the engine if and only if some call is a query and another call closes too |
| Session.LosingCloseDoesNotWait | datafusion/session.go:57-72 | The smallest instance: one query and two closes |

## Left out

- CSV, JSON and JSONL providers, the S3, GCS and Azure openers and their common wrapper: thin wrappers with few branches.
- Catalog registration, handle release and the C interface: plumbing without visible semantics.
- URL parsing, drive letters, local paths and `List`: library path rules; a location arrives as scheme, host, query, path.
- `cheapestLeaf`: a performance choice; any leaf gives the same rows, so it is a parameter.
- JSON text: documents are trees. Escapes, number syntax and Go's case-insensitive key matching are not modelled.
- `RowGroups.FieldStats`: takes chunk statistics by leaf column as the file library yields them; when it withholds them is not modelled.
- Wire.PredicateRoundTrip: a compare, low or high key that is absent altogether decodes as an error here and as an empty literal in Go; no serialized document lacks one.
- Float arithmetic: rounding never happens in this code, so floats are reals with infinities, a negative zero and one NaN; float32 widening is exact and not shown.
- EndToEnd.Query: requires pushed NaNs and infinities to be harmless leaf by leaf. That is exact for one test; in a tree another leaf may hide the loss, and then the answer is kept all the same.
- EndToEnd.IcebergQuery: the same; what iceberg-go does with a NaN is a parameter, since its code is not part of this model.
- Insert.InsertInto: over the local backend; the writer's calls fail at a chosen point, and Parquet bytes are a header, batches and a footer.
- InsertRuns.InsertsAreSerializable: the store's Create, Write and Close are single steps of the insert that holds the lock; readers do not interleave, since a scan sees one committed object. It starts from a table that exists.
- MemStore.MemWriter.Close: the store's own mutex is not modelled; each method is one locked section.
- LocalStore.LocalWriter.constructor: the temp name is new to the directory, as `os.CreateTemp` promises.
- Registry.RegistryState: the mutex-protected sections are methods of the class; their interleaving is `RegistryRuns`. Openers that panic or resolve their own key are excluded.
- SeqReader: modelled on values as atomic steps, not as a class; it does not show the memory order of the reference count. The last Release does not overlap a Next, as a caller inside Next holds a reference. An iterator that never ends is out.
- InsertBridge: the channel is a bounded queue and a panic is a step of the pump; the async runtime is not modelled. The receiver is dropped when Go returns.
- Session: modelled on values as atomic steps; the read-write lock is its two rules, no reader while a writer asks or holds, no writer while readers hold. Result readers that outlive the session are the engine's affair.
- `iceberg.BindExpr`: an arbitrary yes or no for each conjunct, which may only drop it. Iceberg's own pruning is taken to be row filtering in three-valued logic.
- `GetRecordReader` and Iceberg scans: contracts, first-appearance column order for the one and schema order for the other.
- Bloom I/O: a filter opens or not, and yields the same each time.
