/**
 * Concurrent inserts on one table provider, step by step: `InsertInto` and its `insertMu` in
 * `providers/parquet/insert.go`.
 */
module InsertRuns {
  import opened Wrappers
  import opened Limit
  import opened Insert
  import opened LocalStore

  /** One call: its mode, the batches its input delivers, and whether the input then fails. */
  datatype Job<R> = Job(op: InsertOp, batches: seq<Batch<R>>, fails: bool)

  datatype Phase<R> =
    | Waiting
    | Locked
    | Writing(out: seq<R>, next: nat)  // rows put into the new object, batches consumed
    | Stopping(result: Result<nat>)    // about to unlock
    | Returned(result: Result<nat>)

  datatype State<R> = State(table: seq<R>, holder: Option<nat>, phases: seq<Phase<R>>, log: seq<nat>)

  datatype Step = Reject | Acquire | Start | WriteNext | Fail | Publish | Unlock

  datatype Event = Event(thread: nat, step: Step)

  function Initial<R>(jobs: seq<Job<R>>, table: seq<R>): State<R> {
    State(table, None, seq(|jobs|, _ => Waiting), [])
  }

  function At<R>(s: State<R>, t: nat, phase: Phase<R>): State<R>
    requires t < |s.phases|
  {
    s.(phases := s.phases[t := phase])
  }

  /** The state after a thread's step; None when the thread cannot take it. */
  function Apply<R>(jobs: seq<Job<R>>, s: State<R>, e: Event): Option<State<R>>
    requires |s.phases| == |jobs|
  {
    var t := e.thread;
    if t >= |jobs| then None
    else
      var job, phase := jobs[t], s.phases[t];
      match e.step
      case Reject => if phase.Waiting? && job.op.Replace? then Some(At(s, t, Returned(Err))) else None
      case Acquire =>
        if phase.Waiting? && !job.op.Replace? && s.holder.None? then
          Some(At(s, t, Locked).(holder := Some(t)))
        else None
      case Start =>
        if !phase.Locked? then None
        else if job.batches == [] && job.fails then Some(At(s, t, Stopping(Err)))
        else if job.batches == [] && job.op.Append? then Some(At(s, t, Stopping(Ok(0))))
        else Some(At(s, t, Writing(if job.op.Append? then s.table else [], 0)))
      case WriteNext =>
        if phase.Writing? && phase.next < |job.batches| then
          Some(At(s, t, Writing(phase.out + job.batches[phase.next], phase.next + 1)))
        else None
      case Fail => if phase.Locked? || phase.Writing? then Some(At(s, t, Stopping(Err))) else None
      case Publish =>
        if phase.Writing? && phase.next == |job.batches| && !job.fails then
          Some(At(s, t, Stopping(Ok(CountRows(job.batches)))).(table := phase.out, log := s.log + [t]))
        else None
      case Unlock =>
        if phase.Stopping? then Some(At(s, t, Returned(phase.result)).(holder := None)) else None
  }

  /** Runs as far as every event is possible. */
  function Run<R>(jobs: seq<Job<R>>, table: seq<R>, events: seq<Event>): (s: Option<State<R>>)
    ensures s.Some? ==> |s.value.phases| == |jobs|
  {
    if events == [] then Some(Initial(jobs, table))
    else
      var before := Run(jobs, table, events[..|events| - 1]);
      if before.None? then None else Apply(jobs, before.value, events[|events| - 1])
  }

  // ----- Serial reference -----

  /** One insert running alone. */
  function Alone<R>(table: seq<R>, job: Job<R>): seq<R> {
    (if job.op.Append? then table else []) + Flatten(job.batches)
  }

  /** What `InsertInto` leaves readable is what the serial reference says if it succeeds, and what was there if not. */
  method InsertAlone<R>(fs: FileSystem<Piece<R>>, path: string, tmp: string, job: Job<R>, f: Faults)
      returns (count: Result<nat>)
    requires tmp !in fs.files && tmp != path && Existing(fs.files, path).Some?
    modifies fs
    ensures var was, now := old(Existing(fs.files, path)), Existing(fs.files, path);
            && now.Some? && (count.Err? ==> now == was)
            && (count.Ok? ==> Flatten(now.value) == Alone(Flatten(was.value), job))
  {
    count := InsertInto(fs, path, tmp, job.op, Input(job.batches, job.fails), f);
    FlattenAppend(old(Existing(fs.files, path)).value, job.batches);
    assert count.Err? ==> path in (fs.files - {tmp}) && fs.files[path] == (fs.files - {tmp})[path];
  }

  function Replay<R>(jobs: seq<Job<R>>, table: seq<R>, log: seq<nat>): seq<R>
    requires forall i | 0 <= i < |log| :: log[i] < |jobs|
  {
    if log == [] then table
    else Alone(Replay(jobs, table, log[..|log| - 1]), jobs[log[|log| - 1]])
  }

  /** The insert published its object. */
  predicate Published<R>(job: Job<R>, phase: Phase<R>) {
    (phase.Stopping? || phase.Returned?) && phase.result.Ok? && !(job.op.Append? && job.batches == [])
  }

  /** The insert holds the lock. */
  predicate Busy<R>(phase: Phase<R>) {
    phase.Locked? || phase.Writing? || phase.Stopping?
  }

  ghost predicate PhaseOk<R>(job: Job<R>, phase: Phase<R>, table: seq<R>) {
    match phase
    case Waiting => true
    case Locked => !job.op.Replace?
    case Writing(out, k) =>
      && !job.op.Replace? && k <= |job.batches| && !(job.op.Append? && job.batches == [])
      && out == (if job.op.Append? then table else []) + Flatten(job.batches[..k])
    case Stopping(r) => r.Ok? ==> !job.op.Replace? && !job.fails && r.value == CountRows(job.batches)
    case Returned(r) => r.Ok? ==> !job.op.Replace? && !job.fails && r.value == CountRows(job.batches)
  }

  ghost predicate Inv<R>(jobs: seq<Job<R>>, table: seq<R>, s: State<R>) {
    && |s.phases| == |jobs|
    && (forall i | 0 <= i < |s.log| :: s.log[i] < |jobs|)
    && s.table == Replay(jobs, table, s.log)
    && (s.holder.Some? ==> s.holder.value < |jobs|)
    && (forall t | 0 <= t < |jobs| :: Busy(s.phases[t]) <==> s.holder == Some(t))
    && (forall t | 0 <= t < |jobs| :: PhaseOk(jobs[t], s.phases[t], s.table))
    && (forall t | 0 <= t < |jobs| :: t in s.log <==> Published(jobs[t], s.phases[t]))
    && (forall i, j | 0 <= i < j < |s.log| :: s.log[i] != s.log[j])
  }

  lemma FlattenOneMore<R>(batches: seq<Batch<R>>, k: nat)
    requires k < |batches|
    ensures Flatten(batches[..k + 1]) == Flatten(batches[..k]) + batches[k]
  {
    assert batches[..k + 1] == batches[..k] + [batches[k]];
    FlattenAppend(batches[..k], [batches[k]]);
    assert [batches[k]][1..] == [];
    assert Flatten([batches[k]]) == batches[k] + Flatten<R>([]);
  }

  /** Nobody else is writing while the holder publishes. */
  lemma PublishKeepsInv<R>(jobs: seq<Job<R>>, table: seq<R>, s: State<R>, t: nat)
    requires Inv(jobs, table, s) && Apply(jobs, s, Event(t, Publish)).Some?
    ensures Inv(jobs, table, Apply(jobs, s, Event(t, Publish)).value)
  {
    var after := Apply(jobs, s, Event(t, Publish)).value;
    assert after.log[..|after.log| - 1] == s.log;
    assert jobs[t].batches[..|jobs[t].batches|] == jobs[t].batches;
    assert after.table == Alone(s.table, jobs[t]);
    assert t !in s.log;
    forall u | 0 <= u < |jobs| ensures u in after.log <==> Published(jobs[u], after.phases[u]) {
      assert u in after.log <==> u in s.log || u == t;
    }
  }

  /** A step that publishes nothing changes one thread's phase, and the lock only for itself. */
  lemma PhaseChangeKeepsInv<R>(jobs: seq<Job<R>>, table: seq<R>, s: State<R>, t: nat, phase: Phase<R>,
                               holder: Option<nat>)
    requires Inv(jobs, table, s) && t < |jobs|
    requires PhaseOk(jobs[t], phase, s.table) && (Published(jobs[t], phase) <==> Published(jobs[t], s.phases[t]))
    requires (holder == s.holder && (Busy(phase) <==> Busy(s.phases[t]))) ||
             (s.holder.None? && holder == Some(t) && Busy(phase)) ||
             (s.holder == Some(t) && holder.None? && !Busy(phase))
    ensures Inv(jobs, table, At(s, t, phase).(holder := holder))
  {
  }

  lemma StartKeepsInv<R>(jobs: seq<Job<R>>, table: seq<R>, s: State<R>, t: nat)
    requires Inv(jobs, table, s) && Apply(jobs, s, Event(t, Start)).Some?
    ensures Inv(jobs, table, Apply(jobs, s, Event(t, Start)).value)
  {
    assert jobs[t].batches[..0] == [];
    var after := Apply(jobs, s, Event(t, Start)).value;
    PhaseChangeKeepsInv(jobs, table, s, t, after.phases[t], s.holder);
  }

  lemma WriteKeepsInv<R>(jobs: seq<Job<R>>, table: seq<R>, s: State<R>, t: nat)
    requires Inv(jobs, table, s) && Apply(jobs, s, Event(t, WriteNext)).Some?
    ensures Inv(jobs, table, Apply(jobs, s, Event(t, WriteNext)).value)
  {
    FlattenOneMore(jobs[t].batches, s.phases[t].next);
    var after := Apply(jobs, s, Event(t, WriteNext)).value;
    PhaseChangeKeepsInv(jobs, table, s, t, after.phases[t], s.holder);
  }

  lemma StepKeepsInv<R>(jobs: seq<Job<R>>, table: seq<R>, s: State<R>, e: Event)
    requires Inv(jobs, table, s) && Apply(jobs, s, e).Some?
    ensures Inv(jobs, table, Apply(jobs, s, e).value)
  {
    var t := e.thread;
    if e.step.Publish? {
      PublishKeepsInv(jobs, table, s, t);
    } else if e.step.Start? {
      StartKeepsInv(jobs, table, s, t);
    } else if e.step.WriteNext? {
      WriteKeepsInv(jobs, table, s, t);
    } else {
      var after := Apply(jobs, s, e).value;
      PhaseChangeKeepsInv(jobs, table, s, t, after.phases[t], after.holder);
    }
  }

  lemma {:induction false} RunKeepsInv<R>(jobs: seq<Job<R>>, table: seq<R>, events: seq<Event>)
    requires Run(jobs, table, events).Some?
    ensures Inv(jobs, table, Run(jobs, table, events).value)
  {
    if events != [] {
      RunKeepsInv(jobs, table, events[..|events| - 1]);
      StepKeepsInv(jobs, table, Run(jobs, table, events[..|events| - 1]).value, events[|events| - 1]);
    }
  }

  /**
   * In every interleaving of any number of inserts, with failures at any step, the table is the replay of the inserts
   * that published, in commit order, each once. An insert that reported success either published or was an append of
   * nothing, and it reported the rows it was delivered; one that reported failure is not in the replay.
   */
  lemma InsertsAreSerializable<R>(jobs: seq<Job<R>>, table: seq<R>, events: seq<Event>)
    requires Run(jobs, table, events).Some?
    ensures var s := Run(jobs, table, events).value;
            && (forall i | 0 <= i < |s.log| :: s.log[i] < |jobs|)
            && s.table == Replay(jobs, table, s.log)
            && (forall i, j | 0 <= i < j < |s.log| :: s.log[i] != s.log[j])
            && (forall t | 0 <= t < |jobs| && s.phases[t].Returned? ::
                  && (s.phases[t].result.Ok? ==> s.phases[t].result.value == CountRows(jobs[t].batches))
                  && (t in s.log <==> s.phases[t].result.Ok? && !(jobs[t].op.Append? && jobs[t].batches == [])))
  {
    RunKeepsInv(jobs, table, events);
  }

  /** Whether an insert has an error to report. */
  predicate Failed<R>(phase: Phase<R>) {
    (phase.Stopping? || phase.Returned?) && phase.result.Err?
  }

  lemma FailsByStep<R>(jobs: seq<Job<R>>, s: State<R>, e: Event, t: nat)
    requires |s.phases| == |jobs| && t < |jobs| && Apply(jobs, s, e).Some?
    ensures Failed(s.phases[t]) ==> Failed(Apply(jobs, s, e).value.phases[t])
    ensures Failed(Apply(jobs, s, e).value.phases[t]) ==>
              Failed(s.phases[t]) || jobs[t].op.Replace? || jobs[t].fails || e == Event(t, Fail)
    ensures e == Event(t, Fail) ==> Failed(Apply(jobs, s, e).value.phases[t])
  {
  }

  lemma {:induction false} RunFailsExactly<R>(jobs: seq<Job<R>>, table: seq<R>, events: seq<Event>, t: nat)
    requires Run(jobs, table, events).Some? && t < |jobs|
    ensures Event(t, Fail) in events ==> Failed(Run(jobs, table, events).value.phases[t])
    ensures Failed(Run(jobs, table, events).value.phases[t]) ==>
              jobs[t].op.Replace? || jobs[t].fails || Event(t, Fail) in events
  {
    if events != [] {
      var before, e := events[..|events| - 1], events[|events| - 1];
      RunFailsExactly(jobs, table, before, t);
      FailsByStep(jobs, Run(jobs, table, before).value, e, t);
      assert events == before + [e];
    }
  }

  /** An insert returns an error exactly when it is a Replace, its input fails or one of its own steps did. */
  lemma ErrorsHaveCauses<R>(jobs: seq<Job<R>>, table: seq<R>, events: seq<Event>, t: nat)
    requires Run(jobs, table, events).Some? && t < |jobs| && Run(jobs, table, events).value.phases[t].Returned?
    ensures Run(jobs, table, events).value.phases[t].result.Err? <==>
            jobs[t].op.Replace? || jobs[t].fails || Event(t, Fail) in events
  {
    RunFailsExactly(jobs, table, events, t);
    RunKeepsInv(jobs, table, events);
  }

  /** Who can move: the lock is all that one insert waits for another for, and the holder may fail until it commits. */
  lemma WhoCanMove<R>(jobs: seq<Job<R>>, s: State<R>, t: nat)
    requires |s.phases| == |jobs| && t < |jobs|
    ensures var p, job := s.phases[t], jobs[t];
            && (Apply(jobs, s, Event(t, Reject)).Some? <==> p.Waiting? && job.op.Replace?)
            && (Apply(jobs, s, Event(t, Acquire)).Some? <==> p.Waiting? && !job.op.Replace? && s.holder.None?)
            && (Apply(jobs, s, Event(t, Start)).Some? <==> p.Locked?)
            && (Apply(jobs, s, Event(t, Fail)).Some? <==> p.Locked? || p.Writing?)
            && (Apply(jobs, s, Event(t, WriteNext)).Some? <==> p.Writing? && p.next < |job.batches|)
            && (Apply(jobs, s, Event(t, Publish)).Some? <==>
                p.Writing? && p.next == |job.batches| && !job.fails)
            && (Apply(jobs, s, Event(t, Unlock)).Some? <==> p.Stopping?)
  {
  }

  /** The lock never wedges the provider: until every insert has returned, some insert can take a step. */
  lemma InsertsNeverStuck<R>(jobs: seq<Job<R>>, table: seq<R>, events: seq<Event>) returns (e: Event)
    requires Run(jobs, table, events).Some?
    requires exists t :: 0 <= t < |jobs| && !Run(jobs, table, events).value.phases[t].Returned?
    ensures Apply(jobs, Run(jobs, table, events).value, e).Some?
  {
    RunKeepsInv(jobs, table, events);
    var s := Run(jobs, table, events).value;
    var t :| 0 <= t < |jobs| && !s.phases[t].Returned?;
    if s.holder.Some? {
      var h := s.holder.value;
      assert s.holder == Some(h);
      e := Event(h, if s.phases[h].Locked? then Start
                    else if s.phases[h].Stopping? then Unlock
                    else if s.phases[h].next < |jobs[h].batches| then WriteNext
                    else if jobs[h].fails then Fail
                    else Publish);
    } else {
      e := Event(t, if jobs[t].op.Replace? then Reject else Acquire);
    }
  }
}
