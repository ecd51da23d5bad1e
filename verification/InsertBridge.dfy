/** The insert bridge, `GoDataSink::write_all` in `rust/datafusion-c-abi/src/table.rs`, step by step. */
module InsertBridge {
  import opened Wrappers

  const INSERT_CHANNEL_CAPACITY: nat := 8

  /** `taken` counts the items pulled from the input plan. */
  datatype Pump =
    | Pulling(taken: nat)
    | Sending(taken: nat)   // holding input[taken - 1]
    | Stopped(taken: nat)   // returned: its sender is dropped
    | Panicked(taken: nat)  // unwound: its sender is dropped just the same

  /** The synchronous Go call: its receiver is dropped when it returns. */
  datatype GoCall = Running | Answered(rows: Result<nat>)

  datatype Outcome = Success(rows: nat) | PumpFailed | GoFailed

  datatype State<T> = State(
    pump: Pump,
    queue: seq<T>,
    received: seq<T>,
    sawEnd: bool,
    go: GoCall,
    done: Option<Outcome>)

  datatype Event =
    | Pull
    | Send
    | SendFails        // the receiver is gone
    | Panic            // polling the input panics, or the task is aborted at an await
    | Receive
    | EndOfStream      // the receiver finds the channel empty and its sender dropped
    | GoReturns(rows: Result<nat>)
    | Join             // both the call and the pump are awaited

  function Initial<T>(): State<T> {
    State(Pulling(0), [], [], false, Running, None)
  }

  predicate Ended(p: Pump) {
    p.Stopped? || p.Panicked?
  }

  function Joined(rows: Result<nat>, pump: Pump): Outcome
    requires Ended(pump)
  {
    if rows.Err? then GoFailed else if pump.Panicked? then PumpFailed else Success(rows.value)
  }

  function Apply<T>(input: seq<T>, s: State<T>, e: Event): Option<State<T>> {
    match e
    case Pull =>
      if !s.pump.Pulling? then None
      else Some(s.(pump := if s.pump.taken < |input| then Sending(s.pump.taken + 1) else Stopped(s.pump.taken)))
    case Send =>
      if s.pump.Sending? && 0 < s.pump.taken <= |input| && s.go.Running? && |s.queue| < INSERT_CHANNEL_CAPACITY then
        Some(s.(pump := Pulling(s.pump.taken), queue := s.queue + [input[s.pump.taken - 1]]))
      else None
    case SendFails => if s.pump.Sending? && s.go.Answered? then Some(s.(pump := Stopped(s.pump.taken))) else None
    case Panic => if s.pump.Pulling? || s.pump.Sending? then Some(s.(pump := Panicked(s.pump.taken))) else None
    case Receive =>
      if s.go.Running? && s.queue != [] then
        Some(s.(queue := s.queue[1..], received := s.received + [s.queue[0]]))
      else None
    case EndOfStream =>
      if s.go.Running? && s.queue == [] && Ended(s.pump) && !s.sawEnd then Some(s.(sawEnd := true)) else None
    case GoReturns(rows) => if s.go.Running? then Some(s.(go := Answered(rows), queue := [])) else None
    case Join =>
      if s.go.Answered? && Ended(s.pump) && s.done.None? then
        Some(s.(done := Some(Joined(s.go.rows, s.pump))))
      else None
  }

  function Run<T>(input: seq<T>, events: seq<Event>): Option<State<T>>
    decreases |events|
  {
    if events == [] then Some(Initial())
    else
      var before := Run(input, events[..|events| - 1]);
      if before.None? then None else Apply(input, before.value, events[|events| - 1])
  }

  // ----- Invariant -----

  /** The items that entered the channel: all taken ones but the one in hand. */
  ghost predicate Delivered<T>(input: seq<T>, s: State<T>) {
    && s.pump.taken <= |input| && (s.pump.Sending? ==> s.pump.taken > 0)
    && s.received <= input
    && (s.go.Running? ==>
          var sent := s.received + s.queue;
          && sent <= input
          && (s.pump.Pulling? || s.pump.Stopped? ==> |sent| == s.pump.taken)
          && (s.pump.Sending? ==> |sent| == s.pump.taken - 1)
          && (s.pump.Stopped? ==> s.pump.taken == |input|))
  }

  ghost predicate Inv<T>(input: seq<T>, s: State<T>) {
    && Delivered(input, s) && |s.queue| <= INSERT_CHANNEL_CAPACITY
    && (s.sawEnd ==> Ended(s.pump) && (s.pump.Stopped? ==> s.received == input) && s.queue == [])
    && (s.done.Some? ==> s.go.Answered? && Ended(s.pump) && s.done.value == Joined(s.go.rows, s.pump))
  }

  lemma StepKeepsDelivered<T>(input: seq<T>, s: State<T>, e: Event)
    requires Inv(input, s) && Apply(input, s, e).Some?
    ensures Delivered(input, Apply(input, s, e).value)
  {
    if e.Receive? {
      assert s.received + s.queue == (s.received + [s.queue[0]]) + s.queue[1..];
    }
  }

  lemma StepKeepsInv<T>(input: seq<T>, s: State<T>, e: Event)
    requires Inv(input, s) && Apply(input, s, e).Some?
    ensures Inv(input, Apply(input, s, e).value)
  {
    StepKeepsDelivered(input, s, e);
    if e.EndOfStream? {
      assert s.received + s.queue == s.received;
    }
  }

  lemma {:induction false} RunKeepsInv<T>(input: seq<T>, events: seq<Event>)
    requires Run(input, events).Some?
    ensures Inv(input, Run(input, events).value)
    decreases |events|
  {
    if events != [] {
      RunKeepsInv(input, events[..|events| - 1]);
      StepKeepsInv(input, Run(input, events[..|events| - 1]).value, events[|events| - 1]);
    }
  }

  // ----- Main results -----

  /**
   * In every interleaving of the pump and the Go call, the channel stays within its capacity, Go has received a prefix
   * of the input in order, and until Go returns the next items in the channel continue that prefix.
   */
  lemma BridgeKeepsOrder<T>(input: seq<T>, events: seq<Event>)
    requires Run(input, events).Some?
    ensures var s := Run(input, events).value;
            |s.queue| <= INSERT_CHANNEL_CAPACITY && s.received <= input && s.received + s.queue <= input
  {
    RunKeepsInv(input, events);
    var s := Run(input, events).value;
    QueueEmptied(input, events);
    if s.go.Answered? {
      assert s.received + s.queue == s.received;
    }
  }

  lemma {:induction false} QueueEmptied<T>(input: seq<T>, events: seq<Event>)
    requires Run(input, events).Some?
    ensures var s := Run(input, events).value; s.go.Answered? ==> s.queue == []
    decreases |events|
  {
    if events != [] {
      QueueEmptied(input, events[..|events| - 1]);
    }
  }

  /**
   * `write_all` returns only after the pump has ended, and succeeds exactly when Go succeeded and the pump did not die.
   * A success whose consumer read to the end of the stream delivered the whole input.
   */
  lemma SuccessIsComplete<T>(input: seq<T>, events: seq<Event>)
    requires Run(input, events).Some? && Run(input, events).value.done.Some?
    ensures var s := Run(input, events).value;
            && Ended(s.pump) && s.go.Answered?
            && (forall rows: nat :: s.done.value == Success(rows) <==> s.go.rows == Ok(rows) && s.pump.Stopped?)
            && (s.done.value.GoFailed? <==> s.go.rows.Err?)
            && (s.done.value.Success? && s.sawEnd ==> s.received == input)
  {
    RunKeepsInv(input, events);
  }

  /** One more event of a run. */
  lemma RunOne<T>(input: seq<T>, events: seq<Event>, e: Event, s: State<T>) returns (after: State<T>)
    requires Run(input, events) == Some(s) && Apply(input, s, e).Some?
    ensures Run(input, events + [e]) == Some(after) && Apply(input, s, e) == Some(after)
  {
    assert (events + [e])[..|events|] == events;
    after := Apply(input, s, e).value;
  }

  /** Why the pump is joined: to Go, a pump that died looks like the end of the input. */
  lemma DeadPumpLooksLikeEnd<T>(input: seq<T>, rows: nat) returns (events: seq<Event>)
    requires input != []
    ensures Run(input, events).Some?
    ensures var s := Run(input, events).value;
            s.sawEnd && s.received == [] && s.go == Answered(Ok(rows)) && s.done == Some(PumpFailed)
  {
    var s := RunOne(input, [], Panic, Initial());
    assert [] + [Panic] == [Panic];
    s := RunOne(input, [Panic], EndOfStream, s);
    s := RunOne(input, [Panic] + [EndOfStream], GoReturns(Ok(rows)), s);
    s := RunOne(input, [Panic] + [EndOfStream] + [GoReturns(Ok(rows))], Join, s);
    events := [Panic] + [EndOfStream] + [GoReturns(Ok(rows))] + [Join];
  }

  // ----- Progress -----

  /** Items still to pull, twice; items still to receive; the two ends' last steps. */
  function Remaining<T>(input: seq<T>, s: State<T>): int {
    (match s.pump
     case Pulling(n) => 3 * (|input| - n) + 2
     case Sending(n) => 3 * (|input| - n) + 4
     case Stopped(_) => 0
     case Panicked(_) => 0)
    + |s.queue| + (if s.sawEnd then 0 else 1) + (if s.go.Running? then 1 else 0) + (if s.done.Some? then 0 else 1)
  }

  lemma StepCounts<T>(input: seq<T>, s: State<T>, e: Event)
    requires Inv(input, s) && Apply(input, s, e).Some?
    ensures 0 <= Remaining(input, Apply(input, s, e).value) < Remaining(input, s)
  {
  }

  lemma {:induction false} RunIsBounded<T>(input: seq<T>, events: seq<Event>)
    requires Run(input, events).Some?
    ensures |events| + Remaining(input, Run(input, events).value) <= 3 * |input| + 5
    decreases |events|
  {
    if events != [] {
      var before := events[..|events| - 1];
      RunIsBounded(input, before);
      RunKeepsInv(input, before);
      StepCounts(input, Run(input, before).value, events[|events| - 1]);
    }
  }

  /**
   * No schedule runs for ever or wedges: it has at most 3 * |input| + 5 steps; while Go still reads, the pump can move,
   * an item can be received, or the end of the stream can be; and once Go has returned, `write_all` can go on to
   * return.
   */
  lemma BridgeAlwaysFinishes<T>(input: seq<T>, events: seq<Event>)
    requires Run(input, events).Some?
    ensures var s := Run(input, events).value;
            && |events| <= 3 * |input| + 5
            && (s.go.Running? && !s.sawEnd ==>
                  exists e :: e in [Pull, Send, Receive, EndOfStream] && Apply(input, s, e).Some?)
            && (s.go.Answered? && s.done.None? ==> exists e :: e in [Pull, SendFails, Join] && Apply(input, s, e).Some?)
  {
    RunIsBounded(input, events);
    RunKeepsInv(input, events);
    var s := Run(input, events).value;
    RemainingIsNat(input, s);
    var e := if s.go.Answered? then (if s.pump.Pulling? then Pull else if s.pump.Sending? then SendFails else Join)
             else if s.queue != [] then Receive
             else if s.pump.Pulling? then Pull else if s.pump.Sending? then Send else EndOfStream;
    if s.done.None? && (s.go.Answered? || !s.sawEnd) {
      assert Apply(input, s, e).Some?;
    }
  }

  /** Who can move, in any reachable state: the pump sends exactly while the eight places are not all taken. */
  lemma WhoCanMove<T>(input: seq<T>, events: seq<Event>, rows: Result<nat>)
    requires Run(input, events).Some?
    ensures var s := Run(input, events).value; var live := s.go.Running?;
            && (Apply(input, s, Pull).Some? <==> s.pump.Pulling?)
            && (Apply(input, s, Send).Some? <==> s.pump.Sending? && live && |s.queue| < 8)
            && (Apply(input, s, SendFails).Some? <==> s.pump.Sending? && !live)
            && (Apply(input, s, Panic).Some? <==> !Ended(s.pump))
            && (Apply(input, s, Receive).Some? <==> live && s.queue != [])
            && (Apply(input, s, EndOfStream).Some? <==> live && s.queue == [] && Ended(s.pump) && !s.sawEnd)
            && (Apply(input, s, GoReturns(rows)).Some? <==> live)
            && (Apply(input, s, Join).Some? <==> !live && Ended(s.pump) && s.done.None?)
  {
    RunKeepsInv(input, events);
  }

  lemma RemainingIsNat<T>(input: seq<T>, s: State<T>)
    requires Inv(input, s)
    ensures Remaining(input, s) >= 0
  {
  }
}
