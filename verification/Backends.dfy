/** The built-in backends follow the commit contract: their calls, in any order, do what `Commit.Apply` says. */
module Backends {
  import opened Wrappers
  import opened Values
  import opened MemStore
  import opened LocalStore
  import C = Commit

  // ----- In memory -----

  /** No two writers share anything. */
  ghost predicate MemSeparate(writers: seq<MemWriter>)
    reads writers
  {
    forall i, j | 0 <= i < j < |writers| ::
      writers[i] != writers[j] && writers[i].guard != writers[j].guard && writers[i].buf != writers[j].buf
  }

  ghost predicate MemWriterIs(w: MemWriter, store: MemStore, ws: C.WriterState<Byte>)
    reads w, w.store, w.guard, w.buf
  {
    w.Valid() && w.store == store && w.path == ws.path && w.Written() == ws.buf && w.guard.done == ws.done
  }

  /** The store and its writers are in the contract's state. */
  ghost predicate MemIs(store: MemStore, writers: seq<MemWriter>, s: C.StoreState<Byte>)
    reads store, store.published, writers
    reads set i | 0 <= i < |writers| :: writers[i].store
    reads set i | 0 <= i < |writers| :: writers[i].guard
    reads set i | 0 <= i < |writers| :: writers[i].buf
  {
    && store.Valid() && store.Contents() == s.objs
    && |writers| == |s.writers| && MemSeparate(writers)
    && forall i | 0 <= i < |writers| :: MemWriterIs(writers[i], store, s.writers[i])
  }

  method MemCreates(store: MemStore, writers: seq<MemWriter>, path: string, ghost s: C.StoreState<Byte>)
      returns (after: seq<MemWriter>)
    requires MemIs(store, writers, s)
    ensures MemIs(store, after, C.Apply(s, C.Create(path)))
    ensures |after| == |writers| + 1 && after[..|writers|] == writers
    ensures var w := after[|writers|]; fresh(w) && fresh(w.guard) && fresh(w.buf)
  {
    var w := store.Create(path);
    after := writers + [w];
  }

  method MemWrites(store: MemStore, writers: seq<MemWriter>, i: nat, p: seq<Byte>, ghost s: C.StoreState<Byte>)
    requires MemIs(store, writers, s) && i < |writers|
    modifies writers[i], writers[i].buf
    ensures MemIs(store, writers, C.Apply(s, C.Write(i, p)))
    ensures writers[i].buf == old(writers[i].buf) || fresh(writers[i].buf)
  {
    writers[i].Write(p);
  }

  method MemCloses(store: MemStore, writers: seq<MemWriter>, i: nat, ghost s: C.StoreState<Byte>)
    requires MemIs(store, writers, s) && i < |writers|
    modifies store, writers[i].guard
    ensures MemIs(store, writers, C.Apply(s, C.Close(i, true)))
  {
    writers[i].Close();
  }

  method MemAborts(store: MemStore, writers: seq<MemWriter>, i: nat, ghost s: C.StoreState<Byte>)
    requires MemIs(store, writers, s) && i < |writers|
    modifies writers[i].guard
    ensures MemIs(store, writers, C.Apply(s, C.Abort(i)))
  {
    writers[i].Abort();
  }

  method MemRemoves(store: MemStore, writers: seq<MemWriter>, path: string, ghost s: C.StoreState<Byte>)
    requires MemIs(store, writers, s)
    modifies store
    ensures MemIs(store, writers, C.Apply(s, C.Remove(path)))
  {
    var existed := store.Remove(path);
  }

  /** One call; a writer that does not exist cannot be called. */
  method MemStep(store: MemStore, writers: seq<MemWriter>, op: C.Op<Byte>, ghost s: C.StoreState<Byte>)
      returns (after: seq<MemWriter>)
    requires MemIs(store, writers, s) && (op.Close? ==> op.ok)
    modifies store, writers
    modifies set i | 0 <= i < |writers| :: writers[i].guard
    modifies set i | 0 <= i < |writers| :: writers[i].buf
    ensures MemIs(store, after, C.Apply(s, op))
    ensures |after| >= |writers| && after[..|writers|] == writers
    ensures forall i | 0 <= i < |writers| :: after[i].buf == old(writers[i].buf) || fresh(after[i].buf)
    ensures forall i | |writers| <= i < |after| :: fresh(after[i]) && fresh(after[i].guard) && fresh(after[i].buf)
  {
    after := writers;
    match op
    case Create(path) => after := MemCreates(store, writers, path, s);
    case Write(i, p) => if i < |writers| { MemWrites(store, writers, i, p, s); }
    case Close(i, _) => if i < |writers| { MemCloses(store, writers, i, s); }
    case Abort(i) => if i < |writers| { MemAborts(store, writers, i, s); }
    case Remove(path) => MemRemoves(store, writers, path, s);
  }

  /** Any calls on any writers of a new store leave it as the contract says, path by path. */
  method MemRun(ops: seq<C.Op<Byte>>) returns (store: MemStore, writers: seq<MemWriter>)
    requires forall n | 0 <= n < |ops| && ops[n].Close? :: ops[n].ok
    ensures MemIs(store, writers, C.Run(C.StoreState(map[], []), ops))
    ensures forall path ::
              C.Visible(map[], ops, path) == if path in store.Contents() then Some(store.Contents()[path]) else None
  {
    writers := [];
    store := new MemStore();
    for n := 0 to |ops|
      invariant fresh(store) && MemIs(store, writers, C.Run(C.StoreState(map[], []), ops[..n]))
      invariant forall i | 0 <= i < |writers| :: fresh(writers[i]) && fresh(writers[i].guard) && fresh(writers[i].buf)
    {
      assert ops[..n + 1][..n] == ops[..n];
      writers := MemStep(store, writers, ops[n], C.Run(C.StoreState(map[], []), ops[..n]));
    }
    assert ops[..|ops|] == ops;
    forall path {
      C.RunShowsVisible(map[], ops, path);
    }
  }

  // ----- Local files -----

  /** Temp files have names of their own, which no object has. */
  type TempNames = string -> bool

  ghost predicate LocalWriterIs<T>(w: LocalWriter<T>, fs: FileSystem<T>, ws: C.WriterState<T>, isTemp: TempNames)
    reads w, fs, w.fs, w.guard
  {
    && w.Valid() && w.fs == fs && w.path == ws.path && isTemp(w.tmp) && !isTemp(w.path)
    && w.guard.done == ws.done && (!ws.done ==> w.Written() == ws.buf)
  }

  ghost predicate LocalSeparate<T>(writers: seq<LocalWriter<T>>)
    reads writers, set i | 0 <= i < |writers| :: writers[i].guard
  {
    forall i, j | 0 <= i < j < |writers| ::
      && writers[i] != writers[j] && writers[i].guard != writers[j].guard
      && (!writers[i].guard.done && !writers[j].guard.done ==> writers[i].tmp != writers[j].tmp)
  }

  /** The directory, temp files aside, and its writers are in the contract's state. */
  ghost predicate LocalIs<T>(fs: FileSystem<T>, writers: seq<LocalWriter<T>>, s: C.StoreState<T>, isTemp: TempNames)
    reads fs, writers
    reads set i | 0 <= i < |writers| :: writers[i].fs
    reads set i | 0 <= i < |writers| :: writers[i].guard
  {
    && s.objs == (map p | p in fs.files && !isTemp(p) :: fs.files[p])
    && |writers| == |s.writers| && LocalSeparate(writers)
    && forall i | 0 <= i < |writers| :: LocalWriterIs(writers[i], fs, s.writers[i], isTemp)
  }

  method LocalCreates<T>(fs: FileSystem<T>, writers: seq<LocalWriter<T>>, path: string, tmp: string,
                         ghost s: C.StoreState<T>, ghost isTemp: TempNames) returns (after: seq<LocalWriter<T>>)
    requires LocalIs(fs, writers, s, isTemp) && tmp !in fs.files && isTemp(tmp) && !isTemp(path)
    modifies fs
    ensures LocalIs(fs, after, C.Apply(s, C.Create(path)), isTemp)
    ensures |after| == |writers| + 1 && after[..|writers|] == writers
    ensures fresh(after[|writers|]) && fresh(after[|writers|].guard)
  {
    var w := Create(fs, path, tmp, false);
    after := writers + [w.value];
  }

  method LocalWrites<T>(fs: FileSystem<T>, writers: seq<LocalWriter<T>>, i: nat, p: seq<T>, accepted: nat,
                        ghost s: C.StoreState<T>, ghost isTemp: TempNames)
    requires LocalIs(fs, writers, s, isTemp) && i < |writers|
    modifies fs
    ensures LocalIs(fs, writers, C.Apply(s, C.Write(i, if accepted >= |p| then p else p[..accepted])), isTemp)
  {
    var ok := writers[i].Write(p, accepted);
  }

  method LocalCloses<T>(fs: FileSystem<T>, writers: seq<LocalWriter<T>>, i: nat, faults: CloseFaults,
                        ghost s: C.StoreState<T>, ghost isTemp: TempNames)
    requires LocalIs(fs, writers, s, isTemp) && i < |writers|
    modifies fs, writers[i], writers[i].guard
    ensures LocalIs(fs, writers, C.Apply(s, C.Close(i, CommitSucceeds(faults))), isTemp)
  {
    var ok := writers[i].Close(faults);
  }

  method LocalAborts<T>(fs: FileSystem<T>, writers: seq<LocalWriter<T>>, i: nat, removeFails: bool,
                        ghost s: C.StoreState<T>, ghost isTemp: TempNames)
    requires LocalIs(fs, writers, s, isTemp) && i < |writers|
    modifies fs, writers[i], writers[i].guard
    ensures LocalIs(fs, writers, C.Apply(s, C.Abort(i)), isTemp)
  {
    var ok := writers[i].Abort(removeFails);
  }

  method LocalRemoves<T>(fs: FileSystem<T>, writers: seq<LocalWriter<T>>, path: string, fails: bool,
                         ghost s: C.StoreState<T>, ghost isTemp: TempNames)
    requires LocalIs(fs, writers, s, isTemp) && !isTemp(path)
    modifies fs
    ensures LocalIs(fs, writers, if fails then s else C.Apply(s, C.Remove(path)), isTemp)
  {
    var ok := fs.Remove(path, fails);
  }

  /** One call on the local store with what the system does to it; a temp name is picked when it is needed. */
  datatype LocalCall<T> =
    | LocalCreate(path: string, fails: bool)
    | LocalWrite(w: nat, p: seq<T>, accepted: nat)
    | LocalClose(w: nat, faults: CloseFaults)
    | LocalAbort(w: nat, removeFails: bool)
    | LocalRemove(path: string, fails: bool)

  /** What the call amounts to; a failed Create or Remove is nothing at all. */
  function Amounts<T>(call: LocalCall<T>): seq<C.Op<T>> {
    match call
    case LocalCreate(path, fails) => if fails then [] else [C.Create(path)]
    case LocalWrite(w, p, accepted) => [C.Write(w, if accepted >= |p| then p else p[..accepted])]
    case LocalClose(w, faults) => [C.Close(w, CommitSucceeds(faults))]
    case LocalAbort(w, _) => [C.Abort(w)]
    case LocalRemove(path, fails) => if fails then [] else [C.Remove(path)]
  }

  function AllAmounts<T>(calls: seq<LocalCall<T>>): seq<C.Op<T>> {
    if calls == [] then [] else AllAmounts(calls[..|calls| - 1]) + Amounts(calls[|calls| - 1])
  }

  /** The objects of a directory. */
  function Objects<T>(files: map<string, seq<T>>, isTemp: TempNames): map<string, seq<T>> {
    map p | p in files && !isTemp(p) :: files[p]
  }

  /** `os.CreateTemp` picks temp names that are not taken. */
  ghost predicate PicksFresh(pick: set<string> -> string, isTemp: TempNames) {
    forall names :: pick(names) !in names && isTemp(pick(names))
  }

  predicate NamesObjects<T>(call: LocalCall<T>, isTemp: TempNames) {
    call.LocalCreate? || call.LocalRemove? ==> !isTemp(call.path)
  }

  method LocalStep<T>(fs: FileSystem<T>, writers: seq<LocalWriter<T>>, call: LocalCall<T>, pick: set<string> -> string,
                      ghost s: C.StoreState<T>, ghost isTemp: TempNames) returns (after: seq<LocalWriter<T>>)
    requires LocalIs(fs, writers, s, isTemp) && PicksFresh(pick, isTemp) && NamesObjects(call, isTemp)
    modifies fs, writers
    modifies set i | 0 <= i < |writers| :: writers[i].guard
    ensures LocalIs(fs, after, C.Run(s, Amounts(call)), isTemp)
    ensures |after| >= |writers| && after[..|writers|] == writers
    ensures forall i | |writers| <= i < |after| :: fresh(after[i]) && fresh(after[i].guard)
  {
    after := writers;
    match call
    case LocalCreate(path, fails) =>
      if !fails { after := LocalCreates(fs, writers, path, pick(fs.files.Keys), s, isTemp); }
    case LocalWrite(i, p, accepted) => if i < |writers| { LocalWrites(fs, writers, i, p, accepted, s, isTemp); }
    case LocalClose(i, faults) => if i < |writers| { LocalCloses(fs, writers, i, faults, s, isTemp); }
    case LocalAbort(i, removeFails) => if i < |writers| { LocalAborts(fs, writers, i, removeFails, s, isTemp); }
    case LocalRemove(path, fails) => LocalRemoves(fs, writers, path, fails, s, isTemp);
  }

  lemma RunAmounts<T>(s: C.StoreState<T>, ops: seq<C.Op<T>>, call: LocalCall<T>)
    ensures C.Run(s, ops + Amounts(call)) == C.Run(C.Run(s, ops), Amounts(call))
  {
    if Amounts(call) == [] {
      assert ops + Amounts(call) == ops;
    } else {
      assert (ops + Amounts(call))[..|ops|] == ops;
      assert Amounts(call)[..0] == [];
    }
  }

  /** The last call of a run. */
  lemma RunLast<T>(s: C.StoreState<T>, calls: seq<LocalCall<T>>)
    requires calls != []
    ensures C.Run(s, AllAmounts(calls)) ==
            C.Run(C.Run(s, AllAmounts(calls[..|calls| - 1])), Amounts(calls[|calls| - 1]))
  {
    RunAmounts(s, AllAmounts(calls[..|calls| - 1]), calls[|calls| - 1]);
  }

  /** The contract's objects are the directory's. */
  lemma LocalShows<T>(fs: FileSystem<T>, writers: seq<LocalWriter<T>>, initial: map<string, seq<T>>,
                      ops: seq<C.Op<T>>, isTemp: TempNames, path: string)
    requires LocalIs(fs, writers, C.Run(C.StoreState(initial, []), ops), isTemp)
    ensures C.Visible(initial, ops, path) == if path in Objects(fs.files, isTemp) then Some(fs.files[path]) else None
  {
    C.RunShowsVisible(initial, ops, path);
  }

  /** The calls one after the other. */
  method LocalCalls<T>(fs: FileSystem<T>, calls: seq<LocalCall<T>>, pick: set<string> -> string,
                       ghost s: C.StoreState<T>, ghost isTemp: TempNames) returns (writers: seq<LocalWriter<T>>)
    requires LocalIs(fs, [], s, isTemp)
    requires PicksFresh(pick, isTemp) && forall n | 0 <= n < |calls| :: NamesObjects(calls[n], isTemp)
    modifies fs
    ensures LocalIs(fs, writers, C.Run(s, AllAmounts(calls)), isTemp)
    ensures forall i | 0 <= i < |writers| :: fresh(writers[i]) && fresh(writers[i].guard)
    decreases |calls|
  {
    if calls == [] {
      return [];
    }
    var last := |calls| - 1;
    ghost var middle := C.Run(s, AllAmounts(calls[..last]));
    var before := LocalCalls(fs, calls[..last], pick, s, isTemp);
    RunLast(s, calls);
    writers := LocalStep(fs, before, calls[last], pick, middle, isTemp);
    assert forall i | 0 <= i < |before| :: writers[i] == writers[..|before|][i] == before[i];
  }

  /** Any calls on any local writers, with any system calls failing, leave the objects as the contract says. */
  method LocalRun<T>(fs: FileSystem<T>, calls: seq<LocalCall<T>>, pick: set<string> -> string, ghost isTemp: TempNames)
      returns (writers: seq<LocalWriter<T>>)
    requires PicksFresh(pick, isTemp) && forall n | 0 <= n < |calls| :: NamesObjects(calls[n], isTemp)
    modifies fs
    ensures LocalIs(fs, writers, C.Run(C.StoreState(old(Objects(fs.files, isTemp)), []), AllAmounts(calls)), isTemp)
    ensures forall path ::
              C.Visible(old(Objects(fs.files, isTemp)), AllAmounts(calls), path) ==
              if path in Objects(fs.files, isTemp) then Some(fs.files[path]) else None
  {
    ghost var before := Objects(fs.files, isTemp);
    writers := LocalCalls(fs, calls, pick, C.StoreState(before, []), isTemp);
    forall path {
      LocalShows(fs, writers, before, AllAmounts(calls), isTemp, path);
    }
  }
}
