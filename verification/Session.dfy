/** `SQL`, `Close` and the finalizer of `datafusion/session.go`, step by step, for any number of goroutines. */
module Session {
  import opened Wrappers
  import opened Work

  datatype Job = Query | CloseCall

  datatype Reply = Refused | Ran | Closed | AlreadyClosed

  datatype Phase =
    | Fresh
    | Reading                // holds the read lock, has not looked at `closed`
    | InEngine               // inside the engine with the handle
    | Leaving(ran: bool)     // about to drop the read lock
    | Won                    // swapped `closed` from false to true
    | Pending                // asked for the write lock: no new reader gets in
    | Holding                // holds the write lock
    | Emptied                // freed the handle, still holds the lock
    | Returned(reply: Reply)

  /** `frees` counts the engine's frees of the handle; `handle` is the field, set to nil by Close only. */
  datatype State = State(
    phases: seq<Phase>, closed: bool, winner: Option<nat>, handle: bool, frees: nat, armed: bool, collected: bool)

  /** A goroutine takes its next step, or the garbage collector runs the finalizer. */
  datatype Event = Step(thread: nat) | Finalize

  function Initial(jobs: seq<Job>): State {
    State(seq(|jobs|, _ => Fresh), false, None, true, 0, true, false)
  }

  function At(s: State, t: nat, phase: Phase): State
    requires t < |s.phases|
  {
    s.(phases := s.phases[t := phase])
  }

  predicate Reads(p: Phase) {
    p.Reading? || p.InEngine? || p.Leaving?
  }

  predicate Writes(p: Phase) {
    p.Pending? || p.Holding? || p.Emptied?
  }

  predicate SomeReader(s: State) {
    exists t :: 0 <= t < |s.phases| && Reads(s.phases[t])
  }

  predicate SomeWriter(s: State) {
    exists t :: 0 <= t < |s.phases| && Writes(s.phases[t])
  }

  /** The session is unreachable once every call that was given it has returned. */
  predicate AllReturned(s: State) {
    forall t | 0 <= t < |s.phases| :: s.phases[t].Returned?
  }

  function Apply(jobs: seq<Job>, s: State, e: Event): Option<State>
    requires |s.phases| == |jobs|
  {
    match e
    case Finalize =>
      if !AllReturned(s) || !s.armed || s.collected then None
      else if s.closed then Some(s.(collected := true))
      else Some(s.(collected := true, closed := true, frees := s.frees + 1))
    case Step(t) =>
      if t >= |jobs| then None
      else
        match s.phases[t]
        case Fresh =>
          if jobs[t].Query? then if SomeWriter(s) then None else Some(At(s, t, Reading))
          else if s.closed then Some(At(s, t, Returned(AlreadyClosed)))
          else Some(At(s, t, Won).(closed := true, winner := Some(t)))
        case Reading => Some(At(s, t, if s.closed then Leaving(false) else InEngine))
        case InEngine => Some(At(s, t, Leaving(true)))
        case Leaving(ran) => Some(At(s, t, Returned(if ran then Ran else Refused)))
        case Won => Some(At(s, t, Pending))
        case Pending => if SomeReader(s) then None else Some(At(s, t, Holding))
        case Holding => Some(At(s, t, Emptied).(frees := s.frees + 1, handle := false))
        case Emptied => Some(At(s, t, Returned(Closed)).(armed := false))
        case Returned(_) => None
  }

  function Run(jobs: seq<Job>, events: seq<Event>): (s: Option<State>)
    ensures s.Some? ==> |s.value.phases| == |jobs|
  {
    if events == [] then Some(Initial(jobs))
    else
      var before := Run(jobs, events[..|events| - 1]);
      if before.None? then None else Apply(jobs, before.value, events[|events| - 1])
  }

  // ----- Invariant -----

  predicate Frees(p: Phase) {
    p.Emptied? || p == Returned(Closed)
  }

  /**
   * Only the winner of the swap closes; the handle is freed when it has emptied it, or by the finalizer if none did.
   */
  ghost predicate Inv(jobs: seq<Job>, s: State) {
    && |s.phases| == |jobs|
    && (s.winner.Some? ==> s.winner.value < |jobs| && s.closed
                           && (var p := s.phases[s.winner.value]; p.Won? || Writes(p) || p == Returned(Closed)))
    && (forall t | 0 <= t < |jobs| && s.winner != Some(t) ::
          !s.phases[t].Won? && !Writes(s.phases[t]) && s.phases[t] != Returned(Closed))
    && (s.winner.None? ==> s.armed && s.handle && s.closed == s.collected && s.frees == if s.closed then 1 else 0)
    && (s.winner.Some? ==>
          && s.frees == (if Frees(s.phases[s.winner.value]) then 1 else 0) && s.handle == (s.frees == 0)
          && s.armed == (s.phases[s.winner.value] != Returned(Closed)) && !s.collected)
    && (s.collected ==> AllReturned(s))
    && (forall t | 0 <= t < |jobs| && s.phases[t].InEngine? :: s.frees == 0 && s.handle)
    && (s.winner.Some? && (s.phases[s.winner.value].Holding? || s.phases[s.winner.value].Emptied?) ==> !SomeReader(s))
  }

  predicate Queries(job: Job, p: Phase) {
    (p.Fresh? && job.Query?) || Reads(p)
  }

  lemma QueryStepKeepsInv(jobs: seq<Job>, s: State, t: nat)
    requires Inv(jobs, s) && t < |jobs| && Queries(jobs[t], s.phases[t]) && Apply(jobs, s, Step(t)).Some?
    ensures Inv(jobs, Apply(jobs, s, Step(t)).value)
  {
    var p := s.phases[t];
    if p.Fresh? && s.winner.Some? {
      assert !Writes(s.phases[s.winner.value]);
    }
  }

  lemma CloseStepKeepsInv(jobs: seq<Job>, s: State, t: nat)
    requires Inv(jobs, s) && t < |jobs| && !Queries(jobs[t], s.phases[t]) && Apply(jobs, s, Step(t)).Some?
    ensures Inv(jobs, Apply(jobs, s, Step(t)).value)
  {
    var after := Apply(jobs, s, Step(t)).value;
    assert forall u | 0 <= u < |jobs| && u != t :: after.phases[u] == s.phases[u];
    assert SomeReader(after) ==> SomeReader(s);
  }

  lemma FinalizeKeepsInv(jobs: seq<Job>, s: State)
    requires Inv(jobs, s) && Apply(jobs, s, Finalize).Some?
    ensures Inv(jobs, Apply(jobs, s, Finalize).value)
  {
  }

  lemma StepKeepsInv(jobs: seq<Job>, s: State, e: Event)
    requires Inv(jobs, s) && Apply(jobs, s, e).Some?
    ensures Inv(jobs, Apply(jobs, s, e).value)
  {
    if e.Finalize? {
      FinalizeKeepsInv(jobs, s);
    } else if Queries(jobs[e.thread], s.phases[e.thread]) {
      QueryStepKeepsInv(jobs, s, e.thread);
    } else {
      CloseStepKeepsInv(jobs, s, e.thread);
    }
  }

  lemma {:induction false} RunKeepsInv(jobs: seq<Job>, events: seq<Event>)
    requires Run(jobs, events).Some?
    ensures Inv(jobs, Run(jobs, events).value)
  {
    if events != [] {
      RunKeepsInv(jobs, events[..|events| - 1]);
      StepKeepsInv(jobs, Run(jobs, events[..|events| - 1]).value, events[|events| - 1]);
    }
  }

  // ----- Main results -----

  /**
   * In every interleaving of any number of queries and closes, the handle is freed at most once, no call is inside the
   * engine once it has been freed, and at most one Close does the closing; when that one has returned, the handle has
   * been freed and no call is inside the engine.
   */
  lemma SessionDrains(jobs: seq<Job>, events: seq<Event>)
    requires Run(jobs, events).Some?
    ensures var s := Run(jobs, events).value;
            && s.frees <= 1
            && (forall t | 0 <= t < |jobs| && s.phases[t].InEngine? :: s.frees == 0 && s.handle)
            && (forall t, u | 0 <= t < |jobs| && 0 <= u < |jobs| && s.phases[t] == Returned(Closed) == s.phases[u] ::
                  t == u)
            && (forall t | 0 <= t < |jobs| && s.phases[t] == Returned(Closed) ::
                  s.frees == 1 && forall u | 0 <= u < |jobs| :: !s.phases[u].InEngine?)
  {
    RunKeepsInv(jobs, events);
  }

  /** One more event of a run. */
  lemma RunOne(jobs: seq<Job>, events: seq<Event>, e: Event, s: State) returns (after: State)
    requires Run(jobs, events) == Some(s) && |s.phases| == |jobs| && Apply(jobs, s, e).Some?
    ensures Run(jobs, events + [e]) == Some(after) && Apply(jobs, s, e) == Some(after)
  {
    assert (events + [e])[..|events|] == events;
    after := Apply(jobs, s, e).value;
  }

  /** Only queries read, only closes close, and a Close that lost did so to another one. */
  ghost predicate KindOk(jobs: seq<Job>, s: State, t: nat)
    requires t < |jobs| == |s.phases|
  {
    var p := s.phases[t];
    && (Reads(p) ==> jobs[t].Query?)
    && (p.Won? || Writes(p) ==> jobs[t].CloseCall?)
    && (p.Returned? ==> (jobs[t].CloseCall? <==> p.reply.Closed? || p.reply.AlreadyClosed?))
    && (p == Returned(AlreadyClosed) ==> s.winner.Some? && s.winner != Some(t))
  }

  ghost predicate KindsOk(jobs: seq<Job>, s: State) {
    && |s.phases| == |jobs| && (forall t | 0 <= t < |jobs| :: KindOk(jobs, s, t))
    && (s.winner.Some? ==> s.winner.value < |jobs| && jobs[s.winner.value].CloseCall?)
  }

  lemma StepKeepsKinds(jobs: seq<Job>, s: State, e: Event)
    requires Inv(jobs, s) && KindsOk(jobs, s) && Apply(jobs, s, e).Some?
    ensures KindsOk(jobs, Apply(jobs, s, e).value)
  {
    var after := Apply(jobs, s, e).value;
    forall t | 0 <= t < |jobs| ensures KindOk(jobs, after, t) {
      assert KindOk(jobs, s, t);
    }
  }

  lemma {:induction false} RunKeepsKinds(jobs: seq<Job>, events: seq<Event>)
    requires Run(jobs, events).Some?
    ensures KindsOk(jobs, Run(jobs, events).value)
  {
    if events != [] {
      var before := events[..|events| - 1];
      RunKeepsInv(jobs, before);
      RunKeepsKinds(jobs, before);
      StepKeepsKinds(jobs, Run(jobs, before).value, events[|events| - 1]);
    }
  }

  /** After these events call t has returned while some call is inside the engine. */
  ghost predicate ReturnsEarly(jobs: seq<Job>, events: seq<Event>, t: nat)
    requires t < |jobs|
  {
    Run(jobs, events).Some? &&
    var s := Run(jobs, events).value;
    s.phases[t].Returned? && exists q :: 0 <= q < |jobs| && s.phases[q].InEngine?
  }

  /** Some call is a query, and some other call closes too. */
  predicate QueryAndRival(jobs: seq<Job>, t: nat) {
    (exists q :: 0 <= q < |jobs| && jobs[q].Query?) && exists u :: 0 <= u < |jobs| && u != t && jobs[u].CloseCall?
  }

  lemma EarlyReturnNeedsRival(jobs: seq<Job>, events: seq<Event>, t: nat)
    requires t < |jobs| && jobs[t].CloseCall? && ReturnsEarly(jobs, events, t)
    ensures QueryAndRival(jobs, t)
  {
    RunKeepsInv(jobs, events);
    RunKeepsKinds(jobs, events);
    var s := Run(jobs, events).value;
    assert KindOk(jobs, s, t);
    var q :| 0 <= q < |jobs| && s.phases[q].InEngine?;
    assert KindOk(jobs, s, q);
  }

  /** The query enters the engine, its rival wins the swap, and the Close that lost it returns at once. */
  lemma RivalLetsCloseReturn(jobs: seq<Job>, q: nat, u: nat, t: nat) returns (events: seq<Event>)
    requires q < |jobs| && u < |jobs| && t < |jobs| && u != t
    requires jobs[q].Query? && jobs[u].CloseCall? && jobs[t].CloseCall?
    ensures Run(jobs, events).Some?
    ensures var s := Run(jobs, events).value;
            s.phases[q].InEngine? && s.phases[t] == Returned(AlreadyClosed) && s.frees == 0
  {
    var s := RunOne(jobs, [], Step(q), Initial(jobs));
    assert [] + [Step(q)] == [Step(q)];
    s := RunOne(jobs, [Step(q)], Step(q), s);
    s := RunOne(jobs, [Step(q)] + [Step(q)], Step(u), s);
    s := RunOne(jobs, [Step(q)] + [Step(q)] + [Step(u)], Step(t), s);
    events := [Step(q)] + [Step(q)] + [Step(u)] + [Step(t)];
  }

  /**
   * Close promises to wait for the calls in flight. A given Close can return while a query is inside the engine exactly
   * when there is a query and somebody else closes too; the only Close of a session always waits.
   */
  lemma CloseReturnsEarlyIffRivalled(jobs: seq<Job>, t: nat)
    requires t < |jobs| && jobs[t].CloseCall?
    ensures (exists events :: ReturnsEarly(jobs, events, t)) <==> QueryAndRival(jobs, t)
  {
    if events :| ReturnsEarly(jobs, events, t) {
      EarlyReturnNeedsRival(jobs, events, t);
    }
    if QueryAndRival(jobs, t) {
      var q :| 0 <= q < |jobs| && jobs[q].Query?;
      var u :| 0 <= u < |jobs| && u != t && jobs[u].CloseCall?;
      var events := RivalLetsCloseReturn(jobs, q, u, t);
      assert ReturnsEarly(jobs, events, t);
    }
  }

  /** The smallest instance: one query and two closes. */
  lemma LosingCloseDoesNotWait() returns (jobs: seq<Job>, events: seq<Event>)
    ensures |jobs| == 3 && jobs[2].CloseCall? && ReturnsEarly(jobs, events, 2)
  {
    jobs := [Query, CloseCall, CloseCall];
    events := RivalLetsCloseReturn(jobs, 0, 1, 2);
  }

  // ----- What replies mean -----

  /** After n events call t is inside the engine. */
  ghost predicate InEngineAt(jobs: seq<Job>, events: seq<Event>, n: int, t: nat)
    requires t < |jobs|
  {
    0 <= n <= |events| && Run(jobs, events[..n]).Some? && Run(jobs, events[..n]).value.phases[t].InEngine?
  }

  /** The n-th event is call t looking at `closed`, and it is set. */
  ghost predicate SeesClosedAt(jobs: seq<Job>, events: seq<Event>, n: int, t: nat)
    requires t < |jobs|
  {
    0 <= n < |events| && events[n] == Step(t) && Run(jobs, events[..n]).Some? &&
    var s := Run(jobs, events[..n]).value;
    s.closed && (s.phases[t].Reading? || (s.phases[t].Fresh? && jobs[t].CloseCall?))
  }

  predicate HasRun(p: Phase) {
    p.InEngine? || p == Leaving(true) || p == Returned(Ran)
  }

  predicate TurnedAway(p: Phase) {
    p == Leaving(false) || p == Returned(Refused) || p == Returned(AlreadyClosed)
  }

  lemma OthersKeepPhase(jobs: seq<Job>, s: State, e: Event, t: nat)
    requires |s.phases| == |jobs| && t < |jobs| && e != Step(t) && Apply(jobs, s, e).Some?
    ensures Apply(jobs, s, e).value.phases[t] == s.phases[t]
  {
    if e.Step? {
      var p := StepTouchesOne(jobs, s, e.thread);
    }
  }

  lemma OwnStepReplies(jobs: seq<Job>, s: State, t: nat)
    requires |s.phases| == |jobs| && t < |jobs| && Apply(jobs, s, Step(t)).Some?
    ensures var p, now := s.phases[t], Apply(jobs, s, Step(t)).value.phases[t];
            && (HasRun(now) <==> HasRun(p) || now.InEngine?)
            && (TurnedAway(now) <==>
                TurnedAway(p) || (s.closed && (p.Reading? || (p.Fresh? && jobs[t].CloseCall?))))
  {
    var p, now := s.phases[t], Apply(jobs, s, Step(t)).value.phases[t];
    if p.Reading? {
      assert now == if s.closed then Leaving(false) else InEngine;
    } else if p.Leaving? {
      assert now == Returned(if p.ran then Ran else Refused);
    } else if p.Fresh? {
      assert now == if jobs[t].Query? then Reading else if s.closed then Returned(AlreadyClosed) else Won;
    } else {
      var next := StepTouchesOne(jobs, s, t);
    }
  }

  /** What held within a run holds within it still, and nothing else does but at its end. */
  lemma LookedBefore(jobs: seq<Job>, events: seq<Event>, t: nat)
    requires events != [] && t < |jobs|
    ensures var before := events[..|events| - 1];
            && ((exists n :: InEngineAt(jobs, events, n, t)) <==>
                (exists n :: InEngineAt(jobs, before, n, t)) || InEngineAt(jobs, events, |events|, t))
            && ((exists n :: SeesClosedAt(jobs, events, n, t)) <==>
                (exists n :: SeesClosedAt(jobs, before, n, t)) || SeesClosedAt(jobs, events, |before|, t))
  {
    var before := events[..|events| - 1];
    forall n | 0 <= n < |events|
      ensures InEngineAt(jobs, events, n, t) <==> InEngineAt(jobs, before, n, t)
      ensures n < |before| ==> (SeesClosedAt(jobs, events, n, t) <==> SeesClosedAt(jobs, before, n, t))
    {
      assert events[..n] == before[..n];
    }
  }

  lemma {:induction false} RunKeepsReplies(jobs: seq<Job>, events: seq<Event>, t: nat)
    requires Run(jobs, events).Some? && t < |jobs|
    ensures HasRun(Run(jobs, events).value.phases[t]) <==> exists n :: InEngineAt(jobs, events, n, t)
    ensures TurnedAway(Run(jobs, events).value.phases[t]) <==> exists n :: SeesClosedAt(jobs, events, n, t)
  {
    assert events[..|events|] == events;
    if events == [] {
      assert forall n :: !InEngineAt(jobs, events, n, t) && !SeesClosedAt(jobs, events, n, t);
    } else {
      var before, e := events[..|events| - 1], events[|events| - 1];
      RunKeepsReplies(jobs, before, t);
      LookedBefore(jobs, events, t);
      if e == Step(t) {
        OwnStepReplies(jobs, Run(jobs, before).value, t);
      } else {
        OthersKeepPhase(jobs, Run(jobs, before).value, e, t);
      }
    }
  }

  /**
   * A query answers with a result exactly when it was in the engine, and any call is turned away exactly when it looked
   * at `closed` and found it set.
   */
  lemma RepliesAreTrue(jobs: seq<Job>, events: seq<Event>, t: nat)
    requires Run(jobs, events).Some? && t < |jobs| && Run(jobs, events).value.phases[t].Returned?
    ensures var reply := Run(jobs, events).value.phases[t].reply;
            && (reply == Ran <==> exists n :: InEngineAt(jobs, events, n, t))
            && (reply == (if jobs[t].Query? then Refused else AlreadyClosed) <==>
                exists n :: SeesClosedAt(jobs, events, n, t))
            && (jobs[t].Query? <==> reply == Ran || reply == Refused)
  {
    RunKeepsReplies(jobs, events, t);
    RunKeepsKinds(jobs, events);
    assert KindOk(jobs, Run(jobs, events).value, t);
  }

  /** Who can move: a new query waits for writers, a writer for readers, the finalizer for everybody. */
  lemma WhoCanMove(jobs: seq<Job>, s: State, t: nat)
    requires |s.phases| == |jobs| && t < |jobs|
    ensures Apply(jobs, s, Step(t)).Some? <==>
            && !s.phases[t].Returned?
            && (s.phases[t].Fresh? && jobs[t].Query? ==> !SomeWriter(s))
            && (s.phases[t].Pending? ==> !SomeReader(s))
    ensures Apply(jobs, s, Finalize).Some? <==> AllReturned(s) && s.armed && !s.collected
  {
  }

  // ----- Progress -----

  function StepsLeft(p: Phase): nat {
    match p
    case Fresh => 5
    case Won => 4
    case Pending => 3
    case Reading => 3
    case Holding => 2
    case InEngine => 2
    case Leaving(_) => 1
    case Emptied => 1
    case Returned(_) => 0
  }

  function Remaining(s: State): nat {
    Total(StepsLeft, s.phases) + if s.collected then 0 else 1
  }

  lemma StepTouchesOne(jobs: seq<Job>, s: State, t: nat) returns (p: Phase)
    requires |s.phases| == |jobs| && t < |jobs| && Apply(jobs, s, Step(t)).Some?
    ensures Apply(jobs, s, Step(t)).value.phases == s.phases[t := p] && StepsLeft(p) < StepsLeft(s.phases[t])
    ensures Apply(jobs, s, Step(t)).value.collected == s.collected
  {
    p := match s.phases[t]
         case Fresh => if jobs[t].Query? then Reading else if s.closed then Returned(AlreadyClosed) else Won
         case Reading => if s.closed then Leaving(false) else InEngine
         case InEngine => Leaving(true)
         case Leaving(ran) => Returned(if ran then Ran else Refused)
         case Won => Pending
         case Pending => Holding
         case Holding => Emptied
         case Emptied => Returned(Closed);
  }

  lemma StepCounts(jobs: seq<Job>, s: State, e: Event)
    requires |s.phases| == |jobs| && Apply(jobs, s, e).Some?
    ensures Remaining(Apply(jobs, s, e).value) < Remaining(s)
  {
    if e.Step? {
      var p := StepTouchesOne(jobs, s, e.thread);
      TotalUpdate(StepsLeft, s.phases, e.thread, p);
    }
  }

  lemma {:induction false} RunIsBounded(jobs: seq<Job>, events: seq<Event>)
    requires Run(jobs, events).Some?
    ensures |events| + Remaining(Run(jobs, events).value) <= 5 * |jobs| + 1
  {
    if events == [] {
      TotalOfEqual(StepsLeft, Initial(jobs).phases, 5);
    } else {
      var before := events[..|events| - 1];
      RunIsBounded(jobs, before);
      StepCounts(jobs, Run(jobs, before).value, events[|events| - 1]);
    }
  }

  /** Until every call has returned some goroutine can move: readers first, then the writer, then anybody. */
  lemma SomeoneMoves(jobs: seq<Job>, s: State)
    requires Inv(jobs, s) && !AllReturned(s)
    ensures exists t :: Apply(jobs, s, Step(t)).Some?
  {
    var t :| 0 <= t < |s.phases| && !s.phases[t].Returned?;
    if SomeReader(s) {
      var r :| 0 <= r < |s.phases| && Reads(s.phases[r]);
      assert Apply(jobs, s, Step(r)).Some?;
    } else if SomeWriter(s) {
      var w :| 0 <= w < |s.phases| && Writes(s.phases[w]);
      assert Apply(jobs, s, Step(w)).Some?;
    } else {
      assert Apply(jobs, s, Step(t)).Some?;
    }
  }

  /**
   * Every schedule ends within 5 * |jobs| + 1 steps, and when nothing more can happen every call has returned and the
   * handle has been freed exactly once, by the one Close that closed or by the finalizer when there was none.
   */
  lemma FreedExactlyOnce(jobs: seq<Job>, events: seq<Event>)
    requires Run(jobs, events).Some?
    ensures |events| <= 5 * |jobs| + 1
    ensures var s := Run(jobs, events).value;
            (forall e :: Apply(jobs, s, e).None?) ==>
              AllReturned(s) && s.frees == 1 && (s.winner.Some? <==> !s.collected)
  {
    RunKeepsInv(jobs, events);
    RunIsBounded(jobs, events);
    var s := Run(jobs, events).value;
    if forall e :: Apply(jobs, s, e).None? {
      if !AllReturned(s) {
        SomeoneMoves(jobs, s);
      }
      assert Apply(jobs, s, Finalize).None?;
    }
  }
}
