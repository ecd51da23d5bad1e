/**
 * The Iceberg scan's reader, `providers/iceberg/reader.go`: a producer goroutine handing batches to `Next`, step by
 * step.
 */
module SeqReader {
  import opened Wrappers

  /** What the iterator yields: a record or nil, an error or nil. A record is named by its position. */
  datatype Item = Item(hasRecord: bool, hasError: bool)

  /** `position` counts the items the producer is done with: handed over, or released on cancellation. */
  datatype Producer =
    | Pulling(position: nat)
    | Offering(position: nat)  // in the select, holding items[position]
    | Ended(position: nat)     // the channel is closed

  datatype Consumer =
    | Outside                  // no call running
    | Receiving                // Next, blocked on the channel
    | Draining                 // the last Release, in its loop
    | Finished

  /**
   * The reader's fields, who is where, and what has been observed: releases per record, items yielded, end of stream.
   */
  datatype State = State(
    producer: Producer,
    consumer: Consumer,
    current: Option<nat>,
    error: Option<nat>,
    references: nat,
    cancelled: bool,
    released: multiset<nat>,
    yielded: seq<nat>,
    endOfStream: bool)

  datatype Event =
    | Pull          // the producer advances the iterator
    | Hand          // rendezvous on the unbuffered channel
    | Cancel        // the producer's select takes the cancel branch
    | Next          // a call of Next up to its receive
    | Retain
    | Release
    | Closed        // the consumer's receive finds the channel closed

  function Initial(): State {
    State(Pulling(0), Outside, None, None, 1, false, multiset{}, [], false)
  }

  function ReleaseOf(items: seq<Item>, i: nat): multiset<nat>
    requires i < |items|
  {
    if items[i].hasRecord then multiset{i} else multiset{}
  }

  function ReleaseCurrent(s: State): State {
    s.(current := None, released := s.released + if s.current.Some? then multiset{s.current.value} else multiset{})
  }

  /** After handing over items[i] the producer stops on an error and goes on otherwise. */
  function HandedOver(items: seq<Item>, i: nat): Producer
    requires i < |items|
  {
    if items[i].hasError then Ended(i + 1) else Pulling(i + 1)
  }

  /** What Next does with the item it received. */
  function Received(items: seq<Item>, s: State, i: nat): State
    requires i < |items|
  {
    if items[i].hasError then s.(consumer := Outside, error := Some(i), released := s.released + ReleaseOf(items, i))
    else s.(consumer := Outside, current := if items[i].hasRecord then Some(i) else None, yielded := s.yielded + [i])
  }

  /** A caller holds a reference while it calls, so the last Release never overlaps a Next. */
  function Apply(items: seq<Item>, s: State, e: Event): Option<State> {
    match e
    case Pull =>
      if !s.producer.Pulling? then None
      else
        var n := s.producer.position;
        Some(s.(producer := if n < |items| then Offering(n) else Ended(n)))
    case Hand =>
      if !s.producer.Offering? || s.producer.position >= |items| then None
      else
        var i := s.producer.position;
        if s.consumer.Receiving? then Some(Received(items, s, i).(producer := HandedOver(items, i)))
        else if s.consumer.Draining? then
          Some(s.(producer := HandedOver(items, i), released := s.released + ReleaseOf(items, i)))
        else None
    case Cancel =>
      if !s.producer.Offering? || s.producer.position >= |items| || !s.cancelled then None
      else
        var i := s.producer.position;
        Some(s.(producer := Ended(i + 1), released := s.released + ReleaseOf(items, i)))
    case Next =>
      if !s.consumer.Outside? || s.references == 0 then None
      else Some(if s.error.Some? then ReleaseCurrent(s) else ReleaseCurrent(s).(consumer := Receiving))
    case Retain => if s.references == 0 then None else Some(s.(references := s.references + 1))
    case Release =>
      if s.references > 1 then Some(s.(references := s.references - 1))
      else if s.references == 1 && s.consumer.Outside? then
        Some(s.(references := 0, cancelled := true, consumer := Draining))
      else None
    case Closed =>
      if !s.producer.Ended? then None
      else if s.consumer.Receiving? then Some(s.(consumer := Outside, endOfStream := true))
      else if s.consumer.Draining? then Some(ReleaseCurrent(s).(consumer := Finished))
      else None
  }

  /** Runs as far as every event is possible. */
  function Run(items: seq<Item>, s: State, events: seq<Event>): Option<State>
    decreases |events|
  {
    if events == [] then Some(s)
    else
      var before := Run(items, s, events[..|events| - 1]);
      if before.None? then None else Apply(items, before.value, events[|events| - 1])
  }

  // ----- Invariant -----

  /** Record i has been handed on and is not the one the consumer is looking at. */
  predicate Spent(items: seq<Item>, s: State, i: int) {
    0 <= i < |items| && i < s.producer.position && items[i].hasRecord && s.current != Some(i)
  }

  ghost predicate ReleasedOnce(items: seq<Item>, s: State) {
    forall i: nat :: s.released[i] == if Spent(items, s, i) then 1 else 0
  }

  ghost predicate InOrder(items: seq<Item>, s: State) {
    && |s.yielded| <= s.producer.position <= |items|
    && forall k | 0 <= k < |s.yielded| :: s.yielded[k] == k && !items[k].hasError
  }

  ghost predicate Control(items: seq<Item>, s: State) {
    && (s.producer.Offering? ==> s.producer.position < |items|)
    && (s.current.Some? ==> s.current.value == |s.yielded| - 1 && s.current.value < s.producer.position <= |items|
                            && items[s.current.value].hasRecord)
    && (s.cancelled <==> s.references == 0) && (s.cancelled <==> s.consumer.Draining? || s.consumer.Finished?)
    && (s.error.Some? ==> s.producer == Ended(|s.yielded| + 1) && s.error.value == |s.yielded| < |items|
                          && items[s.error.value].hasError)
    && (s.consumer.Receiving? ==> s.error.None? && s.current.None?)
    && (!s.cancelled && s.error.None? ==>
          s.producer.position == |s.yielded| && (s.producer.Ended? ==> |s.yielded| == |items|))
    && (s.endOfStream ==> |s.yielded| == |items| && s.error.None? && s.producer.Ended?)
    && (s.consumer.Finished? ==> s.producer.Ended? && s.current.None?)
  }

  ghost predicate Inv(items: seq<Item>, s: State) {
    ReleasedOnce(items, s) && InOrder(items, s) && Control(items, s)
  }

  /** The consumer lets go of its batch. */
  lemma ReleaseCurrentOnce(items: seq<Item>, s: State, after: State)
    requires ReleasedOnce(items, s) && after.producer.position == s.producer.position
    requires s.current.Some? ==> s.current.value < s.producer.position <= |items| && items[s.current.value].hasRecord
    requires after.released == ReleaseCurrent(s).released && after.current.None?
    ensures ReleasedOnce(items, after)
  {
  }

  /** The producer is done with one more item: the consumer holds it, or it is released. */
  lemma HandReleasesOnce(items: seq<Item>, s: State, after: State, i: nat)
    requires ReleasedOnce(items, s) && i < |items| && s.producer.position == i && after.producer.position == i + 1
    requires s.current.Some? ==> s.current.value < i
    requires || (after.current == s.current && after.released == s.released + ReleaseOf(items, i))
             || (s.current.None? && after.current == Some(i) && after.released == s.released)
             || (s.current.None? && after.current.None? && !items[i].hasRecord && after.released == s.released)
    ensures ReleasedOnce(items, after)
  {
  }

  lemma StepKeepsReleased(items: seq<Item>, s: State, e: Event)
    requires Inv(items, s) && Apply(items, s, e).Some?
    ensures ReleasedOnce(items, Apply(items, s, e).value)
  {
    var after := Apply(items, s, e).value;
    match e
    case Hand => HandReleasesOnce(items, s, after, s.producer.position);
    case Cancel => HandReleasesOnce(items, s, after, s.producer.position);
    case Next => ReleaseCurrentOnce(items, s, after);
    case Closed =>
      if s.consumer.Draining? {
        ReleaseCurrentOnce(items, s, after);
      } else {
        SameReleases(items, s, after);
      }
    case Pull => SameReleases(items, s, after);
    case Retain => SameReleases(items, s, after);
    case Release => SameReleases(items, s, after);
  }

  lemma SameReleases(items: seq<Item>, s: State, after: State)
    requires ReleasedOnce(items, s)
    requires after.producer.position == s.producer.position && after.current == s.current
             && after.released == s.released
    ensures ReleasedOnce(items, after)
  {
  }

  lemma StepKeepsOrder(items: seq<Item>, s: State, e: Event)
    requires InOrder(items, s) && Control(items, s) && Apply(items, s, e).Some?
    ensures InOrder(items, Apply(items, s, e).value)
  {
  }

  lemma StepKeepsControl(items: seq<Item>, s: State, e: Event)
    requires InOrder(items, s) && Control(items, s) && Apply(items, s, e).Some?
    ensures Control(items, Apply(items, s, e).value)
  {
  }

  lemma StepKeepsInv(items: seq<Item>, s: State, e: Event)
    requires Inv(items, s) && Apply(items, s, e).Some?
    ensures Inv(items, Apply(items, s, e).value)
  {
    StepKeepsReleased(items, s, e);
    StepKeepsOrder(items, s, e);
    StepKeepsControl(items, s, e);
  }

  lemma {:induction false} RunKeepsInv(items: seq<Item>, s: State, events: seq<Event>)
    requires Inv(items, s) && Run(items, s, events).Some?
    ensures Inv(items, Run(items, s, events).value)
    decreases |events|
  {
    if events != [] {
      RunKeepsInv(items, s, events[..|events| - 1]);
      StepKeepsInv(items, Run(items, s, events[..|events| - 1]).value, events[|events| - 1]);
    }
  }

  // ----- Main results -----

  /**
   * In every interleaving of producer, Next, Retain and Release, each record the producer has handed on has been
   * released exactly once unless it is the current batch, and no other record has been released.
   */
  lemma BatchesAreConserved(items: seq<Item>, events: seq<Event>)
    requires Run(items, Initial(), events).Some?
    ensures var s := Run(items, Initial(), events).value;
            && s.producer.position <= |items|
            && (forall i | 0 <= i < |items| ::
                  s.released[i] ==
                  if i < s.producer.position && items[i].hasRecord && s.current != Some(i) then 1 else 0)
            && (s.current.Some? ==> s.current.value < s.producer.position)
  {
    RunKeepsInv(items, Initial(), events);
    var s := Run(items, Initial(), events).value;
    assert forall i | 0 <= i < |items| :: s.released[i] == if Spent(items, s, i) then 1 else 0;
  }

  /**
   * Next yields the iterator's items in order from the first; it stops with an error exactly at the first item that
   * carries one, and reports a clean end only after it has yielded them all.
   */
  lemma ConsumerSeesPrefix(items: seq<Item>, events: seq<Event>)
    requires Run(items, Initial(), events).Some?
    ensures var s := Run(items, Initial(), events).value;
            && |s.yielded| <= |items|
            && (forall k | 0 <= k < |s.yielded| :: s.yielded[k] == k && !items[k].hasError)
            && (s.error.Some? ==> s.error.value == |s.yielded| < |items| && items[s.error.value].hasError)
            && (s.endOfStream ==> |s.yielded| == |items|)
  {
    RunKeepsInv(items, Initial(), events);
  }

  /** Once the last Release has returned the producer has terminated and everything it pulled has been released once. */
  lemma LastReleaseCleansUp(items: seq<Item>, events: seq<Event>)
    requires Run(items, Initial(), events).Some? && Run(items, Initial(), events).value.consumer.Finished?
    ensures var s := Run(items, Initial(), events).value;
            && s.producer.Ended? && s.producer.position <= |items| && s.current.None?
            && (forall i | 0 <= i < |items| ::
                  s.released[i] == if i < s.producer.position && items[i].hasRecord then 1 else 0)
            && (forall e :: Apply(items, s, e).None?)
  {
    BatchesAreConserved(items, events);
    RunKeepsInv(items, Initial(), events);
  }

  /** The n-th event is a Next finding the channel closed. */
  ghost predicate FindsEndAt(items: seq<Item>, events: seq<Event>, n: int) {
    0 <= n < |events| && events[n] == Closed && Run(items, Initial(), events[..n]).Some?
    && Run(items, Initial(), events[..n]).value.consumer.Receiving?
  }

  lemma StepFindsEnd(items: seq<Item>, s: State, e: Event)
    requires Apply(items, s, e).Some?
    ensures Apply(items, s, e).value.endOfStream <==> s.endOfStream || (e.Closed? && s.consumer.Receiving?)
  {
  }

  lemma LastFindsEnd(items: seq<Item>, events: seq<Event>)
    requires events != [] && Run(items, Initial(), events).Some?
    ensures var before := events[..|events| - 1];
            && Run(items, Initial(), before).Some?
            && (Run(items, Initial(), events).value.endOfStream <==>
                Run(items, Initial(), before).value.endOfStream || FindsEndAt(items, events, |before|))
  {
    StepFindsEnd(items, Run(items, Initial(), events[..|events| - 1]).value, events[|events| - 1]);
  }

  lemma FoundEndBefore(items: seq<Item>, events: seq<Event>)
    requires events != []
    ensures var before := events[..|events| - 1];
            (exists n :: FindsEndAt(items, events, n)) <==>
            (exists n :: FindsEndAt(items, before, n)) || FindsEndAt(items, events, |before|)
  {
    var before := events[..|events| - 1];
    forall n | 0 <= n < |before| ensures FindsEndAt(items, events, n) <==> FindsEndAt(items, before, n) {
      assert events[..n] == before[..n];
    }
  }

  /** A Next reports a clean end exactly when it found the channel closed. */
  lemma {:induction false} EndIsSeenExactly(items: seq<Item>, events: seq<Event>)
    requires Run(items, Initial(), events).Some?
    ensures Run(items, Initial(), events).value.endOfStream <==> exists n :: FindsEndAt(items, events, n)
    decreases |events|
  {
    if events != [] {
      LastFindsEnd(items, events);
      EndIsSeenExactly(items, events[..|events| - 1]);
      FoundEndBefore(items, events);
    }
  }

  lemma StepCountsReferences(items: seq<Item>, s: State, e: Event)
    requires Apply(items, s, e).Some?
    ensures Apply(items, s, e).value.references + (if e.Release? then 1 else 0) ==
            s.references + (if e.Retain? then 1 else 0)
  {
  }

  lemma {:induction false} RunCountsReferences(items: seq<Item>, events: seq<Event>)
    requires Run(items, Initial(), events).Some?
    ensures Run(items, Initial(), events).value.references + multiset(events)[Release] == 1 + multiset(events)[Retain]
    decreases |events|
  {
    if events != [] {
      var before, e := events[..|events| - 1], events[|events| - 1];
      RunCountsReferences(items, before);
      StepCountsReferences(items, Run(items, Initial(), before).value, e);
      assert multiset(events) == multiset(before) + multiset{e} by { assert events == before + [e]; }
    }
  }

  /** There are as many references as were taken and not given back, and the drain runs exactly when none is left. */
  lemma ReferencesAreCounted(items: seq<Item>, events: seq<Event>)
    requires Run(items, Initial(), events).Some?
    ensures var s := Run(items, Initial(), events).value;
            && s.references + multiset(events)[Release] == 1 + multiset(events)[Retain]
            && (s.references == 0 <==> s.consumer.Draining? || s.consumer.Finished?)
            && (s.references == 0 <==> s.cancelled)
  {
    RunCountsReferences(items, events);
    RunKeepsInv(items, Initial(), events);
  }

  /** Who can move, in any reachable state. */
  lemma WhoCanMove(items: seq<Item>, events: seq<Event>)
    requires Run(items, Initial(), events).Some?
    ensures var s := Run(items, Initial(), events).value;
            var receives := s.consumer.Receiving? || s.consumer.Draining?;
            && (Apply(items, s, Pull).Some? <==> s.producer.Pulling?)
            && (Apply(items, s, Hand).Some? <==> s.producer.Offering? && receives)
            && (Apply(items, s, Cancel).Some? <==> s.producer.Offering? && s.references == 0)
            && (Apply(items, s, Closed).Some? <==> s.producer.Ended? && receives)
            && (Apply(items, s, Next).Some? <==> s.consumer.Outside? && s.references > 0)
            && (Apply(items, s, Retain).Some? <==> s.references > 0)
            && (Apply(items, s, Release).Some? <==> s.references > 1 || (s.references == 1 && s.consumer.Outside?))
  {
    RunKeepsInv(items, Initial(), events);
  }

  // ----- Progress -----

  /** Steps left while draining. */
  function Remaining(items: seq<Item>, s: State): nat {
    var left := if s.producer.position < |items| then 2 * (|items| - s.producer.position) else 0;
    (match s.producer
     case Pulling(_) => left + 2
     case Offering(_) => left + 1
     case Ended(_) => if s.consumer.Finished? then 0 else 1)
  }

  lemma DrainStepCounts(items: seq<Item>, s: State, e: Event)
    requires Inv(items, s) && s.cancelled && Apply(items, s, e).Some?
    ensures Apply(items, s, e).value.cancelled
    ensures Remaining(items, Apply(items, s, e).value) < Remaining(items, s)
  {
  }

  lemma {:induction false} DrainIsBounded(items: seq<Item>, s: State, events: seq<Event>)
    requires Inv(items, s) && s.cancelled && Run(items, s, events).Some?
    ensures Run(items, s, events).value.cancelled
    ensures |events| + Remaining(items, Run(items, s, events).value) <= Remaining(items, s)
    decreases |events|
  {
    if events != [] {
      var before := events[..|events| - 1];
      DrainIsBounded(items, s, before);
      RunKeepsInv(items, s, before);
      DrainStepCounts(items, Run(items, s, before).value, events[|events| - 1]);
    }
  }

  /**
   * The last Release always returns: from any reachable state in which it drains, every schedule ends within
   * 2 * |items| + 2 steps, and only once the drain has finished.
   */
  lemma LastReleaseReturns(items: seq<Item>, events: seq<Event>, more: seq<Event>)
    requires Run(items, Initial(), events).Some? && Run(items, Initial(), events).value.cancelled
    requires Run(items, Run(items, Initial(), events).value, more).Some?
    ensures |more| <= 2 * |items| + 2
    ensures var s := Run(items, Run(items, Initial(), events).value, more).value;
            (forall e :: Apply(items, s, e).None?) <==> s.consumer.Finished?
  {
    RunKeepsInv(items, Initial(), events);
    var drained := Run(items, Initial(), events).value;
    DrainIsBounded(items, drained, more);
    RunKeepsInv(items, drained, more);
    CanStep(items, Run(items, drained, more).value);
  }

  /** Neither Next nor the last Release blocks for ever: the producer, the channel or the consumer can move. */
  lemma CanStep(items: seq<Item>, s: State)
    requires Inv(items, s)
    ensures s.consumer.Receiving? || s.consumer.Draining? ==>
              Apply(items, s, Pull).Some? || Apply(items, s, Hand).Some? || Apply(items, s, Closed).Some?
    ensures s.consumer.Finished? ==> forall e :: Apply(items, s, e).None?
  {
  }
}
