/** Commit-on-Close over any run of any number of writers: the contract of `objectstore/store.go`. */
module Commit {
  import opened Wrappers

  type Path = string

  datatype WriterState<T> = WriterState(path: Path, buf: seq<T>, done: bool)

  datatype StoreState<T> = StoreState(objs: map<Path, seq<T>>, writers: seq<WriterState<T>>)

  /** One call on a store or on writer w; `ok` says whether the backend can commit just then. */
  datatype Op<T> =
    | Create(path: Path)
    | Write(w: nat, p: seq<T>)
    | Close(w: nat, ok: bool)
    | Abort(w: nat)
    | Remove(path: Path)

  function Apply<T>(s: StoreState<T>, op: Op<T>): StoreState<T> {
    match op
    case Create(path) => s.(writers := s.writers + [WriterState(path, [], false)])
    case Write(w, p) =>
      if w >= |s.writers| then s
      else s.(writers := s.writers[w := s.writers[w].(buf := s.writers[w].buf + p)])
    case Close(w, ok) =>
      if w >= |s.writers| || s.writers[w].done then s
      else
        var after := s.(writers := s.writers[w := s.writers[w].(done := true)]);
        if ok then after.(objs := s.objs[s.writers[w].path := s.writers[w].buf]) else after
    case Abort(w) =>
      if w >= |s.writers| then s else s.(writers := s.writers[w := s.writers[w].(done := true)])
    case Remove(path) => s.(objs := s.objs - {path})
  }

  function Run<T>(init: StoreState<T>, ops: seq<Op<T>>): StoreState<T> {
    if ops == [] then init else Apply(Run(init, ops[..|ops| - 1]), ops[|ops| - 1])
  }

  // ----- The same, read off the run itself -----

  function Created<T>(ops: seq<Op<T>>): seq<Path> {
    if ops == [] then []
    else Created(ops[..|ops| - 1]) + if ops[|ops| - 1].Create? then [ops[|ops| - 1].path] else []
  }

  /** Everything written through writer w, once it exists. */
  function WrittenTo<T>(ops: seq<Op<T>>, w: nat): seq<T> {
    if ops == [] then []
    else
      var before, last := ops[..|ops| - 1], ops[|ops| - 1];
      WrittenTo(before, w) + if last.Write? && last.w == w && w < |Created(before)| then last.p else []
  }

  /** Writer w was closed or aborted. */
  predicate Ended<T>(ops: seq<Op<T>>, w: nat) {
    exists i :: 0 <= i < |ops| && (ops[i].Close? || ops[i].Abort?) && ops[i].w == w && w < |Created(ops[..i])|
  }

  /** The last operation of the run is a first Close that commits path. */
  predicate Commits<T>(ops: seq<Op<T>>, path: Path) {
    ops != [] &&
    var before, last := ops[..|ops| - 1], ops[|ops| - 1];
    && last.Close? && last.ok && last.w < |Created(before)|
    && !Ended(before, last.w) && Created(before)[last.w] == path
  }

  /** What readers of a path see: what the latest commit of the path wrote, unless it was removed since. */
  function Visible<T>(initial: map<Path, seq<T>>, ops: seq<Op<T>>, path: Path): Option<seq<T>> {
    if ops == [] then (if path in initial then Some(initial[path]) else None)
    else if Commits(ops, path) then Some(WrittenTo(ops[..|ops| - 1], ops[|ops| - 1].w))
    else if ops[|ops| - 1] == Remove(path) then None
    else Visible(initial, ops[..|ops| - 1], path)
  }

  ghost predicate WritersMatch<T>(s: StoreState<T>, ops: seq<Op<T>>) {
    && |s.writers| == |Created(ops)|
    && forall w | 0 <= w < |s.writers| ::
         s.writers[w] == WriterState(Created(ops)[w], WrittenTo(ops, w), Ended(ops, w))
  }

  lemma EndedStep<T>(ops: seq<Op<T>>, w: nat)
    requires ops != []
    ensures var before, last := ops[..|ops| - 1], ops[|ops| - 1];
            Ended(ops, w) <==>
              Ended(before, w) || ((last.Close? || last.Abort?) && last.w == w && w < |Created(before)|)
  {
    var before, n := ops[..|ops| - 1], |ops| - 1;
    assert forall i | 0 <= i < n :: before[i] == ops[i] && before[..i] == ops[..i];
    if Ended(before, w) {
      var i :| 0 <= i < |before| && (before[i].Close? || before[i].Abort?) && before[i].w == w
        && w < |Created(before[..i])|;
      assert ops[i] == before[i] && ops[..i] == before[..i];
    }
    if Ended(ops, w) {
      var i :| 0 <= i < |ops| && (ops[i].Close? || ops[i].Abort?) && ops[i].w == w && w < |Created(ops[..i])|;
      if i < n {
        assert ops[i] == before[i] && ops[..i] == before[..i];
      }
    }
  }

  lemma {:induction false} WritersFollowRun<T>(initial: map<Path, seq<T>>, ops: seq<Op<T>>)
    ensures WritersMatch(Run(StoreState(initial, []), ops), ops)
  {
    if ops != [] {
      var before := ops[..|ops| - 1];
      WritersFollowRun(initial, before);
      var s, after := Run(StoreState(initial, []), before), Run(StoreState(initial, []), ops);
      forall w | 0 <= w < |after.writers|
        ensures after.writers[w] == WriterState(Created(ops)[w], WrittenTo(ops, w), Ended(ops, w))
      {
        EndedStep(ops, w);
        if w >= |s.writers| {
          NothingBeforeCreation(before, w);
        }
      }
    }
  }

  lemma {:induction false} NothingBeforeCreation<T>(ops: seq<Op<T>>, w: nat)
    requires w >= |Created(ops)|
    ensures WrittenTo(ops, w) == [] && !Ended(ops, w)
  {
    if ops != [] {
      NothingBeforeCreation(ops[..|ops| - 1], w);
      EndedStep(ops, w);
    }
  }

  /**
   * A path changes only at the first, successful Close of a writer made for it (or at Remove), to all and only what was
   * written through that writer before; no later Write, Close or Abort of any writer matters to it.
   */
  lemma {:induction false} RunShowsVisible<T>(initial: map<Path, seq<T>>, ops: seq<Op<T>>, path: Path)
    ensures var objs := Run(StoreState(initial, []), ops).objs;
            Visible(initial, ops, path) == if path in objs then Some(objs[path]) else None
  {
    if ops != [] {
      var before, last := ops[..|ops| - 1], ops[|ops| - 1];
      RunShowsVisible(initial, before, path);
      WritersFollowRun(initial, before);
    }
  }

  /** No Write and no Abort ever changes an object, and no Close does once its writer was closed or aborted. */
  lemma SpentWriterIsInert<T>(initial: map<Path, seq<T>>, ops: seq<Op<T>>, op: Op<T>)
    requires op.Write? || op.Abort? || (op.Close? && Ended(ops, op.w))
    ensures Apply(Run(StoreState(initial, []), ops), op).objs == Run(StoreState(initial, []), ops).objs
  {
    WritersFollowRun(initial, ops);
    if op.w >= |Created(ops)| {
      NothingBeforeCreation(ops, op.w);
    }
  }
}
