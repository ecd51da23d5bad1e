/** `Resolve` and `Register` in `objectstore/registry.go`, step by step, for any number of goroutines. */
module RegistryRuns {
  import opened Wrappers
  import opened Work
  import opened Registry

  datatype Answer = Got(store: Store) | OpenFailed(error: nat) | Unregistered

  /** What a call of `Resolve` computes before it takes the lock. */
  datatype Request = Request(key: string, scheme: string)

  /** One opener call: its leader and request, the opener chosen, what it returned, and whether `done` is closed. */
  datatype Call = Call(leader: nat, request: Request, opener: Opener, result: Option<Answer>, done: bool)

  datatype Phase =
    | Idle
    | Waiting(call: CallId)     // blocked on the call's done channel
    | Opening(call: CallId)     // inside the opener, no lock held
    | Settling(call: CallId)    // the opener returned; the second locked section is next
    | Publishing(call: CallId)  // the result is about to be stored in the call and done closed
    | Returned(answer: Answer, via: Option<CallId>)

  /** What an observer of the registry sees, in order. */
  datatype Entry =
    | Started(key: string, call: CallId)
    | Cached(key: string, call: CallId)
    | Failed(key: string, call: CallId)
    | Reset(scheme: string)

  /** `origin` names the call that made each cached store. */
  datatype State = State(
    tables: Tables,
    origin: map<string, CallId>,
    calls: seq<Call>,
    phases: seq<Phase>,
    log: seq<Entry>)

  /** `Register` is one locked section; `Resolve` is several. */
  datatype Event =
    | Register(scheme: string, opener: Opener)
    | Enter(thread: nat)
    | OpenerReturns(thread: nat, answer: Answer)
    | Settle(thread: nat)
    | Publish(thread: nat)
    | Wake(thread: nat)

  function Initial(requests: seq<Request>): State {
    State(Tables(map[], map[], map[]), map[], [], seq(|requests|, _ => Idle), [])
  }

  function At(s: State, t: nat, phase: Phase): State
    requires t < |s.phases|
  {
    s.(phases := s.phases[t := phase])
  }

  function Apply(requests: seq<Request>, s: State, e: Event): Option<State>
    requires |s.phases| == |requests|
  {
    match e
    case Register(scheme, opener) =>
      Some(if Reserved(scheme) then s
           else s.(tables := Registered(s.tables, scheme, opener), log := s.log + [Reset(scheme)]))
    case Enter(t) => if t < |requests| && s.phases[t].Idle? then Some(Entered(requests, s, t)) else None
    case OpenerReturns(t, answer) =>
      if t < |requests| && s.phases[t].Opening? && s.phases[t].call < |s.calls| && !answer.Unregistered? then
        var c := s.phases[t].call;
        Some(At(s, t, Settling(c)).(calls := s.calls[c := s.calls[c].(result := Some(answer))]))
      else None
    case Settle(t) =>
      if t < |requests| && s.phases[t].Settling? && s.phases[t].call < |s.calls|
        && s.calls[s.phases[t].call].result.Some? then
        Some(SettledBy(requests, s, t))
      else None
    case Publish(t) =>
      if t < |requests| && s.phases[t].Publishing? && s.phases[t].call < |s.calls|
        && s.calls[s.phases[t].call].result.Some? then
        var c := s.phases[t].call;
        Some(At(s, t, Returned(s.calls[c].result.value, Some(c))).(calls := s.calls[c := s.calls[c].(done := true)]))
      else None
    case Wake(t) =>
      if t < |requests| && s.phases[t].Waiting? && s.phases[t].call < |s.calls|
         && s.calls[s.phases[t].call].done && s.calls[s.phases[t].call].result.Some? then
        var c := s.phases[t].call;
        Some(At(s, t, Returned(s.calls[c].result.value, Some(c))))
      else None
  }

  /** The first locked section. */
  function Entered(requests: seq<Request>, s: State, t: nat): State
    requires |s.phases| == |requests| && t < |requests|
  {
    var key := requests[t].key;
    match Find(s.tables, key, requests[t].scheme)
    case Hit(store) => At(s, t, Returned(Got(store), if key in s.origin then Some(s.origin[key]) else None))
    case Wait(c) => At(s, t, Waiting(c))
    case NotRegistered => At(s, t, Returned(Unregistered, None))
    case Lead(opener) =>
      var c := |s.calls|;
      At(s, t, Opening(c)).(tables := Begun(s.tables, key, c),
                            calls := s.calls + [Call(t, requests[t], opener, None, false)],
                            log := s.log + [Started(key, c)])
  }

  /** The second locked section. */
  function SettledBy(requests: seq<Request>, s: State, t: nat): State
    requires |s.phases| == |requests| && t < |requests| && s.phases[t].Settling?
    requires s.phases[t].call < |s.calls| && s.calls[s.phases[t].call].result.Some?
  {
    var key, c := requests[t].key, s.phases[t].call;
    var answer := s.calls[c].result.value;
    if answer.Got? then
      At(s, t, Publishing(c)).(tables := Settled(s.tables, key, Some(answer.store)),
                               origin := s.origin[key := c],
                               log := s.log + [Cached(key, c)])
    else
      At(s, t, Publishing(c)).(tables := Settled(s.tables, key, None), log := s.log + [Failed(key, c)])
  }

  /** Runs as far as every event is possible. */
  function Run(requests: seq<Request>, events: seq<Event>): (s: Option<State>)
    ensures s.Some? ==> |s.value.phases| == |requests|
  {
    if events == [] then Some(Initial(requests))
    else
      var before := Run(requests, events[..|events| - 1]);
      if before.None? then None else Apply(requests, before.value, events[|events| - 1])
  }

  // ----- Invariant -----

  predicate Runs(phase: Phase, c: CallId) {
    phase == Opening(c) || phase == Settling(c)
  }

  predicate Owns(phase: Phase, c: CallId) {
    Runs(phase, c) || phase == Publishing(c)
  }

  predicate Holds(calls: seq<Call>, c: CallId, key: string) {
    c < |calls| && calls[c].request.key == key
  }

  ghost predicate PhaseOk(request: Request, phase: Phase, t: nat, calls: seq<Call>, inflight: map<string, CallId>) {
    var key := request.key;
    match phase
    case Idle => true
    case Waiting(c) => Holds(calls, c, key)
    case Opening(c) =>
      Holds(calls, c, key) && calls[c].leader == t && calls[c].result.None? && key in inflight && inflight[key] == c
    case Settling(c) =>
      Holds(calls, c, key) && calls[c].leader == t && calls[c].result.Some? && key in inflight && inflight[key] == c
    case Publishing(c) => Holds(calls, c, key) && calls[c].leader == t && calls[c].result.Some?
    case Returned(answer, via) =>
      if via.None? then answer.Unregistered?
      else Holds(calls, via.value, key) && calls[via.value].result == Some(answer)
  }

  /** A call that is not done still has its leader at work on it; one that is done has answered its leader. */
  ghost predicate CallOk(requests: seq<Request>, call: Call, c: CallId, phases: seq<Phase>) {
    && call.leader < |requests| == |phases| && call.request == requests[call.leader]
    && if call.done then call.result.Some? && phases[call.leader] == Returned(call.result.value, Some(c))
       else Owns(phases[call.leader], c)
  }

  ghost predicate PhasesOk(requests: seq<Request>, s: State) {
    |s.phases| == |requests| &&
    forall t | 0 <= t < |requests| :: PhaseOk(requests[t], s.phases[t], t, s.calls, s.tables.inflight)
  }

  ghost predicate CallsOk(requests: seq<Request>, s: State) {
    forall c | 0 <= c < |s.calls| :: CallOk(requests, s.calls[c], c, s.phases)
  }

  ghost predicate InflightOk(s: State) {
    forall k | k in s.tables.inflight ::
      var c := s.tables.inflight[k];
      && k !in s.tables.cache && Holds(s.calls, c, k)
      && s.calls[c].leader < |s.phases| && Runs(s.phases[s.calls[c].leader], c)
  }

  ghost predicate CacheOk(s: State) {
    forall k | k in s.tables.cache ::
      k in s.origin && Holds(s.calls, s.origin[k], k) && s.calls[s.origin[k]].result == Some(Got(s.tables.cache[k]))
  }

  ghost predicate Inv(requests: seq<Request>, s: State) {
    PhasesOk(requests, s) && CallsOk(requests, s) && InflightOk(s) && CacheOk(s)
  }

  /** Calls are only ever completed. */
  ghost predicate Grows(calls: seq<Call>, after: seq<Call>) {
    |calls| <= |after| &&
    forall c | 0 <= c < |calls| ::
      && after[c].leader == calls[c].leader && after[c].request == calls[c].request
      && after[c].opener == calls[c].opener
      && (calls[c].result.Some? ==> after[c].result == calls[c].result) && (calls[c].done ==> after[c].done)
  }

  /** A step of thread t touches only its own phase and the calls it leads. */
  ghost predicate TouchesOnly(s: State, after: State, t: nat) {
    && |after.phases| == |s.phases| && (forall u | 0 <= u < |s.phases| && u != t :: after.phases[u] == s.phases[u])
    && Grows(s.calls, after.calls)
    && (forall c | 0 <= c < |s.calls| && s.calls[c].leader != t :: after.calls[c] == s.calls[c])
    && (forall c | |s.calls| <= c < |after.calls| :: after.calls[c].leader == t)
    && (forall k | k in s.tables.inflight
                   && s.tables.inflight[k] < |s.calls| && s.calls[s.tables.inflight[k]].leader != t ::
          k in after.tables.inflight && after.tables.inflight[k] == s.tables.inflight[k])
  }

  lemma OthersKeepPhase(requests: seq<Request>, s: State, after: State, t: nat)
    requires PhasesOk(requests, s) && TouchesOnly(s, after, t) && t < |requests|
    requires PhaseOk(requests[t], after.phases[t], t, after.calls, after.tables.inflight)
    ensures PhasesOk(requests, after)
  {
  }

  lemma OthersKeepCall(requests: seq<Request>, s: State, after: State, t: nat)
    requires CallsOk(requests, s) && TouchesOnly(s, after, t)
    requires forall c | 0 <= c < |after.calls| && after.calls[c].leader == t ::
             CallOk(requests, after.calls[c], c, after.phases)
    ensures CallsOk(requests, after)
  {
  }

  lemma GrowthKeepsCache(s: State, after: State)
    requires CacheOk(s) && Grows(s.calls, after.calls)
    requires after.origin == s.origin && after.tables.cache == s.tables.cache
    ensures CacheOk(after)
  {
  }

  /** A step that leaves the tables alone: t moves to a phase that runs the calls it ran before. */
  lemma QuietStepKeepsInv(requests: seq<Request>, s: State, after: State, t: nat)
    requires Inv(requests, s) && TouchesOnly(s, after, t) && t < |requests| && |after.calls| == |s.calls|
    requires after.tables == s.tables && after.origin == s.origin
    requires PhaseOk(requests[t], after.phases[t], t, after.calls, after.tables.inflight)
    requires forall c | 0 <= c < |s.calls| && s.calls[c].leader == t ::
             CallOk(requests, after.calls[c], c, after.phases)
    requires forall c :: Runs(s.phases[t], c) ==> Runs(after.phases[t], c)
    ensures Inv(requests, after)
  {
    OthersKeepPhase(requests, s, after, t);
    OthersKeepCall(requests, s, after, t);
    GrowthKeepsCache(s, after);
  }

  /** The first locked section makes t the leader of a key that is neither cached nor in flight. */
  lemma LeadKeepsInv(requests: seq<Request>, s: State, t: nat)
    requires Inv(requests, s) && t < |requests| && s.phases[t].Idle?
    requires Find(s.tables, requests[t].key, requests[t].scheme).Lead?
    ensures Inv(requests, Entered(requests, s, t))
  {
    var after := Entered(requests, s, t);
    assert TouchesOnly(s, after, t);
    OthersKeepPhase(requests, s, after, t);
    OthersKeepCall(requests, s, after, t);
    GrowthKeepsCache(s, after);
    assert InflightOk(after);
  }

  lemma EnterKeepsInv(requests: seq<Request>, s: State, t: nat)
    requires Inv(requests, s) && t < |requests| && s.phases[t].Idle?
    ensures Inv(requests, Entered(requests, s, t))
  {
    if Find(s.tables, requests[t].key, requests[t].scheme).Lead? {
      LeadKeepsInv(requests, s, t);
    } else {
      QuietStepKeepsInv(requests, s, Entered(requests, s, t), t);
    }
  }

  lemma OpenerReturnsKeepsInv(requests: seq<Request>, s: State, t: nat, answer: Answer)
    requires Inv(requests, s) && Apply(requests, s, OpenerReturns(t, answer)).Some?
    ensures Inv(requests, Apply(requests, s, OpenerReturns(t, answer)).value)
  {
    QuietStepKeepsInv(requests, s, Apply(requests, s, OpenerReturns(t, answer)).value, t);
  }

  /** The key settles: it is no longer in flight, and only its own entries change. */
  lemma SettleKeepsInflight(s: State, after: State, t: nat, key: string)
    requires InflightOk(s) && t < |s.phases| && after.calls == s.calls
    requires forall k | k in s.tables.inflight && s.calls[s.tables.inflight[k]].leader == t :: k == key
    requires after.tables.inflight == s.tables.inflight - {key}
    requires forall k | k in after.tables.cache :: k == key || k in s.tables.cache
    requires |after.phases| == |s.phases| && forall u | 0 <= u < |s.phases| && u != t :: after.phases[u] == s.phases[u]
    ensures InflightOk(after)
  {
  }

  lemma SettleKeepsCache(s: State, after: State, key: string, c: CallId)
    requires CacheOk(s) && after.calls == s.calls && Holds(s.calls, c, key) && s.calls[c].result.Some?
    requires var answer := s.calls[c].result.value;
             after.tables == Settled(s.tables, key, if answer.Got? then Some(answer.store) else None)
    requires after.origin == if s.calls[c].result.value.Got? then s.origin[key := c] else s.origin
    ensures CacheOk(after)
  {
  }

  lemma SettleTouchesOnly(requests: seq<Request>, s: State, t: nat)
    requires Inv(requests, s) && Apply(requests, s, Settle(t)).Some?
    ensures TouchesOnly(s, SettledBy(requests, s, t), t)
  {
    LeadsOneKey(requests, s, t);
    assert InflightOk(s);
  }

  /** The second locked section moves the key from in flight to cached, or to neither. */
  lemma SettleKeepsInv(requests: seq<Request>, s: State, t: nat)
    requires Inv(requests, s) && Apply(requests, s, Settle(t)).Some?
    ensures Inv(requests, SettledBy(requests, s, t))
  {
    var after := SettledBy(requests, s, t);
    var key := requests[t].key;
    LeadsOneKey(requests, s, t);
    SettleTouchesOnly(requests, s, t);
    OthersKeepPhase(requests, s, after, t);
    OthersKeepCall(requests, s, after, t);
    SettleKeepsCache(s, after, key, s.phases[t].call);
    SettleKeepsInflight(s, after, t, key);
  }

  lemma LeadsOneKey(requests: seq<Request>, s: State, t: nat)
    requires Inv(requests, s) && t < |requests|
    ensures forall k | k in s.tables.inflight && s.calls[s.tables.inflight[k]].leader == t :: k == requests[t].key
  {
  }

  lemma PublishKeepsInv(requests: seq<Request>, s: State, t: nat)
    requires Inv(requests, s) && Apply(requests, s, Publish(t)).Some?
    ensures Inv(requests, Apply(requests, s, Publish(t)).value)
  {
    QuietStepKeepsInv(requests, s, Apply(requests, s, Publish(t)).value, t);
  }

  lemma WakeKeepsInv(requests: seq<Request>, s: State, t: nat)
    requires Inv(requests, s) && Apply(requests, s, Wake(t)).Some?
    ensures Inv(requests, Apply(requests, s, Wake(t)).value)
  {
    QuietStepKeepsInv(requests, s, Apply(requests, s, Wake(t)).value, t);
  }

  lemma RegisterKeepsInv(requests: seq<Request>, s: State, scheme: string, opener: Opener)
    requires Inv(requests, s)
    ensures Inv(requests, Apply(requests, s, Register(scheme, opener)).value)
  {
  }

  lemma StepKeepsInv(requests: seq<Request>, s: State, e: Event)
    requires Inv(requests, s) && Apply(requests, s, e).Some?
    ensures Inv(requests, Apply(requests, s, e).value)
  {
    match e
    case Register(scheme, opener) => RegisterKeepsInv(requests, s, scheme, opener);
    case Enter(t) => EnterKeepsInv(requests, s, t);
    case OpenerReturns(t, answer) => OpenerReturnsKeepsInv(requests, s, t, answer);
    case Settle(t) => SettleKeepsInv(requests, s, t);
    case Publish(t) => PublishKeepsInv(requests, s, t);
    case Wake(t) => WakeKeepsInv(requests, s, t);
  }

  lemma {:induction false} RunKeepsInv(requests: seq<Request>, events: seq<Event>)
    requires Run(requests, events).Some?
    ensures Inv(requests, Run(requests, events).value)
  {
    if events != [] {
      RunKeepsInv(requests, events[..|events| - 1]);
      StepKeepsInv(requests, Run(requests, events[..|events| - 1]).value, events[|events| - 1]);
    }
  }

  // ----- One flight per key -----

  predicate Ends(e: Entry, c: CallId) {
    (e.Cached? || e.Failed?) && e.call == c
  }

  predicate Clears(e: Entry, key: string) {
    e.Reset? && HasPrefix(key, e.scheme + "://")
  }

  ghost predicate ClearedBetween(log: seq<Entry>, m: nat, n: nat, key: string) {
    exists r :: m < r < n <= |log| && Clears(log[r], key)
  }

  /** Between i and n the call settled, and if it left a store in the cache its scheme was then registered again. */
  ghost predicate Over(log: seq<Entry>, i: nat, n: nat, key: string, c: CallId) {
    exists m :: i < m < n <= |log| && Ends(log[m], c) && (log[m].Cached? ==> ClearedBetween(log, m, n, key))
  }

  ghost predicate Ended(log: seq<Entry>, i: nat, c: CallId) {
    exists m :: i < m < |log| && Ends(log[m], c)
  }

  ghost predicate FlightOk(t: Tables, log: seq<Entry>, i: nat)
    requires i < |log|
  {
    log[i].Started? ==>
      var key, c := log[i].key, log[i].call;
      || (key in t.inflight && t.inflight[key] == c)
      || (key in t.cache && Ended(log, i, c))
      || Over(log, i, |log|, key, c)
  }

  ghost predicate SingleFlight(log: seq<Entry>) {
    forall i, j | 0 <= i < j < |log| && log[i].Started? && log[j].Started? && log[i].key == log[j].key ::
      Over(log, i, j, log[i].key, log[i].call)
  }

  ghost predicate LogInv(t: Tables, log: seq<Entry>) {
    SingleFlight(log) && forall i | 0 <= i < |log| :: FlightOk(t, log, i)
  }

  lemma OverLasts(log: seq<Entry>, e: Entry, i: nat, n: nat, key: string, c: CallId)
    requires Over(log, i, n, key, c)
    ensures Over(log + [e], i, n, key, c) && Over(log + [e], i, |log| + 1, key, c)
  {
    var after := log + [e];
    var m :| i < m < n <= |log| && Ends(log[m], c) && (log[m].Cached? ==> ClearedBetween(log, m, n, key));
    assert after[m] == log[m];
    if log[m].Cached? {
      var r :| m < r < n && Clears(log[r], key);
      assert after[r] == log[r];
    }
  }

  lemma EndedLasts(log: seq<Entry>, e: Entry, i: nat, c: CallId)
    requires Ended(log, i, c)
    ensures Ended(log + [e], i, c)
  {
    var m :| i < m < |log| && Ends(log[m], c);
    assert (log + [e])[m] == log[m];
  }

  lemma SingleFlightLasts(log: seq<Entry>, e: Entry)
    requires SingleFlight(log)
    requires e.Started? ==>
      forall i | 0 <= i < |log| && log[i].Started? && log[i].key == e.key :: Over(log, i, |log|, e.key, log[i].call)
    ensures SingleFlight(log + [e])
  {
    var after := log + [e];
    forall i, j | 0 <= i < j < |after| && after[i].Started? && after[j].Started? && after[i].key == after[j].key
      ensures Over(after, i, j, after[i].key, after[i].call)
    {
      assert after[i] == log[i];
      if j < |log| { assert after[j] == log[j]; }
      OverLasts(log, e, i, j, log[i].key, log[i].call);
    }
  }

  /** A registration that clears a cached store closes the calls that made it. */
  lemma ResetKeepsFlight(t: Tables, log: seq<Entry>, scheme: string, opener: Opener, i: nat)
    requires i < |log| && FlightOk(t, log, i)
    ensures FlightOk(Registered(t, scheme, opener), log + [Reset(scheme)], i)
  {
    var e := Reset(scheme);
    var after := log + [e];
    assert after[i] == log[i] && after[|log|] == e;
    if log[i].Started? {
      var key, c := log[i].key, log[i].call;
      if Over(log, i, |log|, key, c) {
        OverLasts(log, e, i, |log|, key, c);
      } else if key in t.cache && Ended(log, i, c) {
        EndedLasts(log, e, i, c);
        if HasPrefix(key, scheme + "://") {
          var m :| i < m < |log| && Ends(log[m], c);
          assert after[m] == log[m] && Clears(after[|log|], key);
          assert ClearedBetween(after, m, |after|, key);
          assert Over(after, i, |after|, key, c);
        }
      }
    }
  }

  lemma RegisterKeepsLog(t: Tables, log: seq<Entry>, scheme: string, opener: Opener)
    requires LogInv(t, log)
    ensures LogInv(Registered(t, scheme, opener), log + [Reset(scheme)])
  {
    var after := log + [Reset(scheme)];
    SingleFlightLasts(log, Reset(scheme));
    forall i | 0 <= i < |after| ensures FlightOk(Registered(t, scheme, opener), after, i) {
      if i < |log| { ResetKeepsFlight(t, log, scheme, opener, i); }
    }
  }

  lemma LeadKeepsLog(t: Tables, log: seq<Entry>, key: string, c: CallId)
    requires LogInv(t, log) && key !in t.cache && key !in t.inflight
    ensures LogInv(Begun(t, key, c), log + [Started(key, c)])
  {
    var e := Started(key, c);
    var after := log + [e];
    assert forall i | 0 <= i < |log| && log[i].Started? && log[i].key == key :: FlightOk(t, log, i);
    SingleFlightLasts(log, e);
    forall i | 0 <= i < |after| ensures FlightOk(Begun(t, key, c), after, i) {
      if i < |log| && log[i].Started? {
        FlightLasts(t, log, e, i);
      }
    }
  }

  /** Whatever is appended, a flight that is over stays over, and a cached one stays ended. */
  lemma FlightLasts(t: Tables, log: seq<Entry>, e: Entry, i: nat)
    requires i < |log| && log[i].Started? && FlightOk(t, log, i)
    ensures FlightOk(t, log + [e], i)
  {
    var key, c := log[i].key, log[i].call;
    assert (log + [e])[i] == log[i];
    if Over(log, i, |log|, key, c) {
      OverLasts(log, e, i, |log|, key, c);
    } else if Ended(log, i, c) {
      EndedLasts(log, e, i, c);
    }
  }

  lemma SettleKeepsLog(t: Tables, log: seq<Entry>, key: string, c: CallId, outcome: Option<Store>)
    requires LogInv(t, log) && key in t.inflight && t.inflight[key] == c && key !in t.cache
    ensures LogInv(Settled(t, key, outcome), log + [if outcome.Some? then Cached(key, c) else Failed(key, c)])
  {
    var e := if outcome.Some? then Cached(key, c) else Failed(key, c);
    var after := log + [e];
    SingleFlightLasts(log, e);
    forall i | 0 <= i < |after| ensures FlightOk(Settled(t, key, outcome), after, i) {
      if i < |log| && log[i].Started? {
        FlightLasts(t, log, e, i);
        assert after[|log|] == e;
        assert log[i].call == c ==> Ends(after[|log|], c);
        assert after[i] == log[i];
      }
    }
  }

  lemma StepKeepsLog(requests: seq<Request>, s: State, e: Event)
    requires Inv(requests, s) && LogInv(s.tables, s.log) && Apply(requests, s, e).Some?
    ensures var after := Apply(requests, s, e).value; LogInv(after.tables, after.log)
  {
    match e
    case Register(scheme, opener) => RegisterKeepsLog(s.tables, s.log, scheme, opener);
    case Enter(t) =>
      if Find(s.tables, requests[t].key, requests[t].scheme).Lead? {
        LeadKeepsLog(s.tables, s.log, requests[t].key, |s.calls|);
      }
    case Settle(t) =>
      var c := s.phases[t].call;
      var answer := s.calls[c].result.value;
      SettleKeepsLog(s.tables, s.log, requests[t].key, c, if answer.Got? then Some(answer.store) else None);
    case _ =>
  }

  lemma {:induction false} RunKeepsLog(requests: seq<Request>, events: seq<Event>)
    requires Run(requests, events).Some?
    ensures var s := Run(requests, events).value; LogInv(s.tables, s.log)
  {
    if events != [] {
      var before := events[..|events| - 1];
      RunKeepsInv(requests, before);
      RunKeepsLog(requests, before);
      StepKeepsLog(requests, Run(requests, before).value, events[|events| - 1]);
    }
  }

  // ----- Main results -----

  function Requests(locations: seq<Location>): (requests: seq<Request>)
    ensures |requests| == |locations|
    ensures forall t | 0 <= t < |locations| :: requests[t] == Request(CacheKey(locations[t]), locations[t].scheme)
  {
    seq(|locations|, t requires 0 <= t < |locations| => Request(CacheKey(locations[t]), locations[t].scheme))
  }

  predicate SameStore(a: Location, b: Location) {
    a.scheme == b.scheme && a.host == b.host && a.query == b.query
  }

  /** Schemes have no colon (section 3.1 of RFC 3986), neither in a location nor in a registration. */
  predicate WellFormedRun(locations: seq<Location>, events: seq<Event>) {
    && (forall t | 0 <= t < |locations| :: WellFormed(locations[t]))
    && forall n | 0 <= n < |events| && events[n].Register? :: Without(events[n].scheme, ':')
  }

  /** What the log names: opener calls by their key, and registrations by a scheme. */
  ghost predicate LogNames(s: State) {
    forall i | 0 <= i < |s.log| ::
      && (s.log[i].Started? ==> Holds(s.calls, s.log[i].call, s.log[i].key))
      && (s.log[i].Reset? ==> Without(s.log[i].scheme, ':'))
  }

  lemma StepKeepsLogNames(requests: seq<Request>, s: State, e: Event)
    requires |s.phases| == |requests| && LogNames(s) && Apply(requests, s, e).Some?
    requires e.Register? ==> Without(e.scheme, ':')
    ensures LogNames(Apply(requests, s, e).value)
  {
    var after := Apply(requests, s, e).value;
    forall i | 0 <= i < |after.log|
      ensures after.log[i].Started? ==> Holds(after.calls, after.log[i].call, after.log[i].key)
      ensures after.log[i].Reset? ==> Without(after.log[i].scheme, ':')
    {
      if i < |s.log| { assert after.log[i] == s.log[i]; }
    }
  }

  lemma {:induction false} RunKeepsLogNames(locations: seq<Location>, events: seq<Event>)
    requires Run(Requests(locations), events).Some? && WellFormedRun(locations, events)
    ensures LogNames(Run(Requests(locations), events).value)
  {
    if events != [] {
      var before := events[..|events| - 1];
      RunKeepsLogNames(locations, before);
      StepKeepsLogNames(Requests(locations), Run(Requests(locations), before).value, events[|events| - 1]);
    }
  }

  /**
   * Between i and n the call settled, and if it left a store in the cache, this very scheme was then registered again.
   */
  ghost predicate ReopenedAfter(log: seq<Entry>, i: nat, n: nat, scheme: string, c: CallId) {
    exists m :: i < m < n <= |log| && Ends(log[m], c) &&
                (log[m].Cached? ==> exists r :: m < r < n && log[r] == Reset(scheme))
  }

  /** For a real location, being cleared is its own scheme being registered. */
  lemma OverMeansReopened(log: seq<Entry>, i: nat, n: nat, l: Location, c: CallId)
    requires WellFormed(l) && forall r | 0 <= r < |log| && log[r].Reset? :: Without(log[r].scheme, ':')
    requires Over(log, i, n, CacheKey(l), c)
    ensures ReopenedAfter(log, i, n, l.scheme, c)
  {
    var key := CacheKey(l);
    var m :| i < m < n <= |log| && Ends(log[m], c) && (log[m].Cached? ==> ClearedBetween(log, m, n, key));
    if log[m].Cached? {
      var r :| m < r < n <= |log| && Clears(log[r], key);
      PrefixIsScheme(l, log[r].scheme);
      assert log[r] == Reset(l.scheme);
    }
  }

  /** The location whose Resolve leads call c. */
  function LeaderOf(locations: seq<Location>, s: State, c: CallId): (l: Option<Location>)
    ensures l.Some? ==> l.value in locations
  {
    if c < |s.calls| && s.calls[c].leader < |locations| then Some(locations[s.calls[c].leader]) else None
  }

  /**
   * In every interleaving of any number of Resolve and Register calls, no key is both cached and in flight, at most one
   * goroutine runs the opener of a key, and two opener calls of one key never overlap: both are for one scheme, host
   * and query, the earlier has settled before the later starts, and if it cached a store that scheme was registered
   * again in between.
   */
  lemma OneFlightPerKey(locations: seq<Location>, events: seq<Event>)
    requires Run(Requests(locations), events).Some? && WellFormedRun(locations, events)
    ensures var s := Run(Requests(locations), events).value;
            && (forall k :: !(k in s.tables.cache && k in s.tables.inflight))
            && (forall t, u | 0 <= t < |locations| && 0 <= u < |locations| && Working(s.phases[t])
                              && Working(s.phases[u]) && CacheKey(locations[t]) == CacheKey(locations[u]) :: t == u)
            && (forall i, j | 0 <= i < j < |s.log| && s.log[i].Started? && s.log[j].Started?
                              && s.log[i].key == s.log[j].key ::
                  var first, second := LeaderOf(locations, s, s.log[i].call), LeaderOf(locations, s, s.log[j].call);
                  && first.Some? && second.Some? && SameStore(first.value, second.value)
                  && ReopenedAfter(s.log, i, j, first.value.scheme, s.log[i].call))
  {
    var requests := Requests(locations);
    RunKeepsInv(requests, events);
    RunKeepsLog(requests, events);
    RunKeepsLogNames(locations, events);
    var s := Run(requests, events).value;
    forall i, j | 0 <= i < j < |s.log| && s.log[i].Started? && s.log[j].Started? && s.log[i].key == s.log[j].key
      ensures var first, second := LeaderOf(locations, s, s.log[i].call), LeaderOf(locations, s, s.log[j].call);
              && first.Some? && second.Some? && SameStore(first.value, second.value)
              && ReopenedAfter(s.log, i, j, first.value.scheme, s.log[i].call)
    {
      var c, d := s.log[i].call, s.log[j].call;
      assert CallOk(requests, s.calls[c], c, s.phases) && CallOk(requests, s.calls[d], d, s.phases);
      var first, second := locations[s.calls[c].leader], locations[s.calls[d].leader];
      CacheKeyInjective(first, second);
      OverMeansReopened(s.log, i, j, first, c);
    }
  }

  predicate Working(phase: Phase) {
    phase.Opening? || phase.Settling?
  }

  /**
   * Every Resolve that answers anything but an unregistered scheme answers what one opener call returned, for a
   * location with its own scheme, host and query; everyone who answers from that call, its leader included, says the
   * same.
   */
  lemma AnswersAreTheLeaders(locations: seq<Location>, events: seq<Event>, t: nat)
    requires Run(Requests(locations), events).Some? && t < |locations| && WellFormed(locations[t])
    requires forall u | 0 <= u < |locations| :: WellFormed(locations[u])
    requires Run(Requests(locations), events).value.phases[t].Returned?
    requires !Run(Requests(locations), events).value.phases[t].answer.Unregistered?
    ensures var s := Run(Requests(locations), events).value;
            && s.phases[t].via.Some? && s.phases[t].via.value < |s.calls|
            && var call := s.calls[s.phases[t].via.value];
            && call.leader < |locations| && SameStore(locations[call.leader], locations[t])
            && call.result == Some(s.phases[t].answer)
            && (call.done ==> s.phases[call.leader] == s.phases[t])
            && (forall u | 0 <= u < |locations| && s.phases[u].Returned? && s.phases[u].via == s.phases[t].via ::
                  s.phases[u].answer == s.phases[t].answer)
  {
    var requests := Requests(locations);
    RunKeepsInv(requests, events);
    var s := Run(requests, events).value;
    assert PhaseOk(requests[t], s.phases[t], t, s.calls, s.tables.inflight);
    var c := s.phases[t].via.value;
    assert CallOk(requests, s.calls[c], c, s.phases);
    CacheKeyInjective(locations[s.calls[c].leader], locations[t]);
  }

  // ----- Entering, on the tables -----

  /**
   * The four outcomes of the first locked section: a cached store is returned, a key in flight is waited for, an
   * unregistered scheme is refused, and otherwise the goroutine opens the key itself with the scheme's opener.
   */
  lemma EnterDecides(requests: seq<Request>, s: State, t: nat)
    requires |s.phases| == |requests| && t < |requests| && s.phases[t].Idle?
    ensures Apply(requests, s, Enter(t)).Some?
    ensures var after := Apply(requests, s, Enter(t)).value;
            var key, scheme, p := requests[t].key, requests[t].scheme, after.phases[t];
            && (key in s.tables.cache ==>
                  p.Returned? && p.answer == Got(s.tables.cache[key]) && after.tables == s.tables)
            && (key !in s.tables.cache && key in s.tables.inflight ==>
                  p == Waiting(s.tables.inflight[key]) && after.tables == s.tables)
            && (key !in s.tables.cache && key !in s.tables.inflight && scheme !in s.tables.openers ==>
                  p.Returned? && p.answer == Unregistered && after.tables == s.tables)
            && (key !in s.tables.cache && key !in s.tables.inflight && scheme in s.tables.openers ==>
                  && p == Opening(|s.calls|) && |after.calls| == |s.calls| + 1
                  && after.calls[|s.calls|] == Call(t, requests[t], s.tables.openers[scheme], None, false)
                  && after.tables == s.tables.(inflight := s.tables.inflight[key := |s.calls|]))
  {
  }

  /** A registration takes its scheme's opener and cached stores, and nothing else; two schemes cannot be registered. */
  lemma RegisterDecides(requests: seq<Request>, s: State, scheme: string, opener: Opener)
    requires |s.phases| == |requests|
    ensures Apply(requests, s, Register(scheme, opener)).Some?
    ensures var before, after := s.tables, Apply(requests, s, Register(scheme, opener)).value.tables;
            && (scheme == "" || scheme == "file" ==> after == before)
            && (scheme != "" && scheme != "file" ==>
                  && after.openers == before.openers[scheme := opener] && after.inflight == before.inflight
                  && (forall k :: k in after.cache <==> k in before.cache && !(scheme + "://" <= k))
                  && (forall k | k in after.cache :: after.cache[k] == before.cache[k]))
  {
  }

  /** Settling takes the key out of flight; a store that was opened is cached for it, a failure caches nothing. */
  lemma SettleDecides(requests: seq<Request>, s: State, t: nat)
    requires |s.phases| == |requests| && Apply(requests, s, Settle(t)).Some?
    ensures var before, after := s.tables, Apply(requests, s, Settle(t)).value.tables;
            var key, result := requests[t].key, s.calls[s.phases[t].call].result.value;
            && after.inflight == before.inflight - {key} && after.openers == before.openers
            && after.cache == if result.Got? then before.cache[key := result.store] else before.cache
  {
  }

  /** At the n-th event goroutine t enters, and the tables know neither its key nor its scheme. */
  ghost predicate RefusedAt(requests: seq<Request>, events: seq<Event>, n: int, t: nat)
    requires t < |requests|
  {
    0 <= n < |events| && events[n] == Enter(t) && Run(requests, events[..n]).Some? &&
    var tables := Run(requests, events[..n]).value.tables;
    && requests[t].key !in tables.cache && requests[t].key !in tables.inflight
    && requests[t].scheme !in tables.openers
  }

  ghost predicate OpenersAnswer(s: State) {
    forall c | 0 <= c < |s.calls| :: s.calls[c].result != Some(Unregistered)
  }

  lemma {:induction false} RunKeepsAnswers(requests: seq<Request>, events: seq<Event>)
    requires Run(requests, events).Some?
    ensures OpenersAnswer(Run(requests, events).value)
  {
    if events != [] {
      RunKeepsAnswers(requests, events[..|events| - 1]);
    }
  }

  lemma LeavesIdleByEntering(requests: seq<Request>, s: State, e: Event, t: nat)
    requires |s.phases| == |requests| && t < |requests| && Apply(requests, s, e).Some?
    ensures Apply(requests, s, e).value.phases[t].Idle? <==> s.phases[t].Idle? && e != Enter(t)
  {
  }

  lemma {:induction false} IdleHasNotEntered(requests: seq<Request>, events: seq<Event>, t: nat)
    requires Run(requests, events).Some? && t < |requests|
    ensures Run(requests, events).value.phases[t].Idle? <==> Enter(t) !in events
  {
    if events != [] {
      var before, e := events[..|events| - 1], events[|events| - 1];
      IdleHasNotEntered(requests, before, t);
      LeavesIdleByEntering(requests, Run(requests, before).value, e, t);
      assert events == before + [e];
    }
  }

  lemma RefusedBefore(requests: seq<Request>, events: seq<Event>, t: nat)
    requires events != [] && t < |requests|
    ensures var before := events[..|events| - 1];
            (exists n :: RefusedAt(requests, events, n, t)) <==>
            (exists n :: RefusedAt(requests, before, n, t)) || RefusedAt(requests, events, |before|, t)
  {
    var before := events[..|events| - 1];
    forall n | 0 <= n < |before| ensures RefusedAt(requests, events, n, t) <==> RefusedAt(requests, before, n, t) {
      assert events[..n] == before[..n];
    }
  }

  predicate SaysUnregistered(p: Phase) {
    p.Returned? && p.answer.Unregistered?
  }

  lemma LaterStepsKeepRefusal(requests: seq<Request>, s: State, e: Event, t: nat)
    requires Inv(requests, s) && OpenersAnswer(s) && t < |requests| && e != Enter(t) && Apply(requests, s, e).Some?
    ensures SaysUnregistered(Apply(requests, s, e).value.phases[t]) <==> SaysUnregistered(s.phases[t])
  {
  }

  /**
   * A Resolve says that its scheme is unregistered exactly when it was as it entered, and its key neither cached nor in
   * flight.
   */
  lemma {:induction false} UnregisteredExactly(requests: seq<Request>, events: seq<Event>, t: nat)
    requires Run(requests, events).Some? && t < |requests|
    ensures SaysUnregistered(Run(requests, events).value.phases[t]) <==> exists n :: RefusedAt(requests, events, n, t)
  {
    if events != [] {
      var before, e := events[..|events| - 1], events[|events| - 1];
      UnregisteredExactly(requests, before, t);
      RefusedBefore(requests, events, t);
      RunKeepsAnswers(requests, before);
      RunKeepsInv(requests, before);
      var s := Run(requests, before).value;
      if e == Enter(t) {
        EnterDecides(requests, s, t);
        IdleHasNotEntered(requests, before, t);
        forall n ensures !RefusedAt(requests, before, n, t) {
          assert 0 <= n < |before| ==> before[n] in before;
        }
      } else {
        LaterStepsKeepRefusal(requests, s, e, t);
      }
    }
  }

  /** Who can move, in any reachable state: only a waiting goroutine depends on another one, the leader of its call. */
  lemma WhoCanMove(requests: seq<Request>, events: seq<Event>, t: nat, answer: Answer)
    requires Run(requests, events).Some? && t < |requests| && !answer.Unregistered?
    ensures var s := Run(requests, events).value; var p := s.phases[t];
            && (Apply(requests, s, Enter(t)).Some? <==> p.Idle?)
            && (Apply(requests, s, OpenerReturns(t, answer)).Some? <==> p.Opening?)
            && (Apply(requests, s, Settle(t)).Some? <==> p.Settling?)
            && (Apply(requests, s, Publish(t)).Some? <==> p.Publishing?)
            && (Apply(requests, s, Wake(t)).Some? <==>
                p.Waiting? && p.call < |s.calls| && s.calls[p.call].done)
  {
    RunKeepsInv(requests, events);
    var s := Run(requests, events).value;
    assert PhaseOk(requests[t], s.phases[t], t, s.calls, s.tables.inflight);
    if s.phases[t].Waiting? {
      assert CallOk(requests, s.calls[s.phases[t].call], s.phases[t].call, s.phases);
    }
  }

  // ----- Progress -----

  /** Nobody waits for ever: until every Resolve has returned, some step other than Register is possible. */
  lemma NeverStuck(requests: seq<Request>, events: seq<Event>) returns (e: Event)
    requires Run(requests, events).Some?
    requires exists t :: 0 <= t < |requests| && !Run(requests, events).value.phases[t].Returned?
    ensures !e.Register? && Apply(requests, Run(requests, events).value, e).Some?
  {
    RunKeepsInv(requests, events);
    var s := Run(requests, events).value;
    var t :| 0 <= t < |requests| && !s.phases[t].Returned?;
    if s.phases[t].Waiting? {
      var c := s.phases[t].call;
      assert Holds(s.calls, c, requests[t].key) && CallOk(requests, s.calls[c], c, s.phases);
      if s.calls[c].done {
        e := Wake(t);
      } else {
        e := Next(s, s.calls[c].leader);
      }
    } else {
      e := Next(s, t);
    }
  }

  /** The step an unblocked goroutine takes next. */
  function Next(s: State, t: nat): Event
    requires t < |s.phases|
  {
    match s.phases[t]
    case Opening(_) => OpenerReturns(t, OpenFailed(0))
    case Settling(_) => Settle(t)
    case Publishing(_) => Publish(t)
    case _ => Enter(t)
  }

  function StepsLeft(phase: Phase): nat {
    match phase
    case Idle => 4
    case Opening(_) => 3
    case Settling(_) => 2
    case Publishing(_) => 1
    case Waiting(_) => 1
    case Returned(_, _) => 0
  }

  lemma StepDoesWork(requests: seq<Request>, s: State, e: Event)
    requires |s.phases| == |requests| && !e.Register? && Apply(requests, s, e).Some?
    ensures Total(StepsLeft, Apply(requests, s, e).value.phases) < Total(StepsLeft, s.phases)
  {
    var after := Apply(requests, s, e).value;
    assert after.phases == s.phases[e.thread := after.phases[e.thread]];
    assert StepsLeft(after.phases[e.thread]) < StepsLeft(s.phases[e.thread]);
    TotalUpdate(StepsLeft, s.phases, e.thread, after.phases[e.thread]);
  }

  function ResolveSteps(events: seq<Event>): nat {
    if events == [] then 0
    else ResolveSteps(events[..|events| - 1]) + if events[|events| - 1].Register? then 0 else 1
  }

  /** Each Resolve takes at most four steps, so with the lemma above all of them return. */
  lemma {:induction false} StepsAreBounded(requests: seq<Request>, events: seq<Event>)
    requires Run(requests, events).Some?
    ensures ResolveSteps(events) + Total(StepsLeft, Run(requests, events).value.phases) <= 4 * |requests|
  {
    if events == [] {
      TotalOfEqual(StepsLeft, Initial(requests).phases, 4);
    } else {
      var before, e := events[..|events| - 1], events[|events| - 1];
      StepsAreBounded(requests, before);
      if !e.Register? {
        StepDoesWork(requests, Run(requests, before).value, e);
      }
    }
  }

  // ----- Which opener made a cached store -----

  predicate Current(s: State, c: CallId) {
    c < |s.calls| && s.calls[c].request.scheme in s.tables.openers
    && s.tables.openers[s.calls[c].request.scheme] == s.calls[c].opener
  }

  /** Every cached store, and every one being opened, comes from the opener now registered for its scheme. */
  ghost predicate Fresh(s: State) {
    && (forall k | k in s.tables.inflight :: Current(s, s.tables.inflight[k]))
    && (forall k | k in s.tables.cache :: k in s.origin && Current(s, s.origin[k]))
  }

  /** Registering now would leave an open of the scheme running with another opener. */
  ghost predicate Overtakes(s: State, scheme: string, opener: Opener) {
    !Reserved(scheme) &&
    exists k :: k in s.tables.inflight && s.tables.inflight[k] < |s.calls|
                && s.calls[s.tables.inflight[k]].request.scheme == scheme
                && s.calls[s.tables.inflight[k]].opener != opener
  }

  ghost predicate Prefixed(requests: seq<Request>) {
    forall t | 0 <= t < |requests| :: HasPrefix(requests[t].key, requests[t].scheme + "://")
  }

  lemma RequestsArePrefixed(locations: seq<Location>)
    ensures Prefixed(Requests(locations))
  {
    forall t | 0 <= t < |locations| ensures HasPrefix(CacheKey(locations[t]), locations[t].scheme + "://") {
      var l := locations[t];
      assert CacheKey(l) == (l.scheme + "://") + (l.host + "?" + l.query);
    }
  }

  /** Every store of one scheme, cached or being opened, comes from the opener now registered for it. */
  ghost predicate SchemeFresh(s: State, scheme: string) {
    && (forall k | k in s.tables.inflight && IsOf(s, s.tables.inflight[k], scheme) :: Current(s, s.tables.inflight[k]))
    && (forall k | k in s.tables.cache && k in s.origin && IsOf(s, s.origin[k], scheme) :: Current(s, s.origin[k]))
  }

  predicate IsOf(s: State, c: CallId, scheme: string) {
    c < |s.calls| && s.calls[c].request.scheme == scheme
  }

  /** Registering clears every cached store of the scheme. */
  lemma RegisterClearsScheme(requests: seq<Request>, s: State, scheme: string, opener: Opener, k: string)
    requires Inv(requests, s) && Prefixed(requests) && !Reserved(scheme)
    requires k in Registered(s.tables, scheme, opener).cache
    ensures k in s.origin && !IsOf(s, s.origin[k], scheme)
  {
    var c := s.origin[k];
    assert Holds(s.calls, c, k) && CallOk(requests, s.calls[c], c, s.phases);
  }

  lemma RegisterStepRefreshesScheme(requests: seq<Request>, s: State, scheme: string, opener: Opener)
    requires Inv(requests, s) && Prefixed(requests) && !Reserved(scheme)
    ensures SchemeFresh(Apply(requests, s, Register(scheme, opener)).value, scheme) <==> !Overtakes(s, scheme, opener)
  {
    var after := Apply(requests, s, Register(scheme, opener)).value;
    forall k | k in after.tables.cache ensures k in s.origin && !IsOf(s, s.origin[k], scheme) {
      RegisterClearsScheme(requests, s, scheme, opener, k);
    }
    if !Overtakes(s, scheme, opener) {
      forall k | k in after.tables.inflight && IsOf(after, after.tables.inflight[k], scheme)
        ensures Current(after, after.tables.inflight[k])
      {
        assert s.calls[s.tables.inflight[k]].opener == opener;
      }
    }
  }

  lemma RegisterStepRefreshesExactly(requests: seq<Request>, s: State, scheme: string, opener: Opener)
    requires Inv(requests, s) && Prefixed(requests) && Fresh(s)
    ensures Fresh(Apply(requests, s, Register(scheme, opener)).value) <==> !Overtakes(s, scheme, opener)
  {
    var after := Apply(requests, s, Register(scheme, opener)).value;
    if !Reserved(scheme) {
      RegisterStepRefreshesScheme(requests, s, scheme, opener);
      forall k | k in after.tables.cache ensures k in s.origin && !IsOf(s, s.origin[k], scheme) {
        RegisterClearsScheme(requests, s, scheme, opener, k);
      }
    }
  }

  lemma CurrentLasts(s: State, after: State)
    requires Grows(s.calls, after.calls) && after.tables.openers == s.tables.openers
    ensures forall c: CallId | Current(s, c) :: Current(after, c)
  {
  }

  lemma EnterKeepsFresh(requests: seq<Request>, s: State, t: nat)
    requires Inv(requests, s) && Fresh(s) && t < |requests| && s.phases[t].Idle?
    ensures Fresh(Entered(requests, s, t))
  {
    CurrentLasts(s, Entered(requests, s, t));
  }

  lemma SettleKeepsFresh(requests: seq<Request>, s: State, t: nat)
    requires Inv(requests, s) && Fresh(s) && Apply(requests, s, Settle(t)).Some?
    ensures Fresh(SettledBy(requests, s, t))
  {
    CurrentLasts(s, SettledBy(requests, s, t));
    assert PhaseOk(requests[t], s.phases[t], t, s.calls, s.tables.inflight);
  }

  lemma OtherStepsKeepFresh(requests: seq<Request>, s: State, e: Event)
    requires Inv(requests, s) && Fresh(s) && !e.Register? && Apply(requests, s, e).Some?
    ensures Fresh(Apply(requests, s, e).value)
  {
    if e.Enter? {
      EnterKeepsFresh(requests, s, e.thread);
    } else if e.Settle? {
      SettleKeepsFresh(requests, s, e.thread);
    } else {
      CurrentLasts(s, Apply(requests, s, e).value);
    }
  }

  ghost predicate NeverOvertakes(requests: seq<Request>, events: seq<Event>) {
    forall n | 0 <= n < |events| && events[n].Register? && Run(requests, events[..n]).Some? ::
      !Overtakes(Run(requests, events[..n]).value, events[n].scheme, events[n].opener)
  }

  lemma {:induction false} RunKeepsFresh(requests: seq<Request>, events: seq<Event>)
    requires Prefixed(requests) && Run(requests, events).Some? && NeverOvertakes(requests, events)
    ensures Fresh(Run(requests, events).value)
  {
    if events != [] {
      var before, e := events[..|events| - 1], events[|events| - 1];
      forall n | 0 <= n < |before| ensures before[..n] == events[..n] {}
      RunKeepsFresh(requests, before);
      RunKeepsInv(requests, before);
      var s := Run(requests, before).value;
      if e.Register? {
        RegisterStepRefreshesExactly(requests, s, e.scheme, e.opener);
      } else {
        OtherStepsKeepFresh(requests, s, e);
      }
    }
  }

  /**
   * In every reachable state, a registration leaves everything of its scheme, cached or being opened, to the opener it
   * registers, exactly when it overtakes no open: it clears the scheme's cached stores but not its opens in flight.
   */
  lemma RegisterRefreshesExactly(locations: seq<Location>, events: seq<Event>, scheme: string, opener: Opener)
    requires Run(Requests(locations), events).Some? && !Reserved(scheme)
    ensures var s := Run(Requests(locations), events).value;
            SchemeFresh(Apply(Requests(locations), s, Register(scheme, opener)).value, scheme) <==>
            !Overtakes(s, scheme, opener)
  {
    RunKeepsInv(Requests(locations), events);
    RequestsArePrefixed(locations);
    RegisterStepRefreshesScheme(Requests(locations), Run(Requests(locations), events).value, scheme, opener);
  }

  /** So a registry that is wholly up to date stays so exactly when the registration overtakes no open. */
  lemma RegisterKeepsAllFresh(locations: seq<Location>, events: seq<Event>, scheme: string, opener: Opener)
    requires Run(Requests(locations), events).Some? && Fresh(Run(Requests(locations), events).value)
    ensures var s := Run(Requests(locations), events).value;
            Fresh(Apply(Requests(locations), s, Register(scheme, opener)).value) <==> !Overtakes(s, scheme, opener)
  {
    RunKeepsInv(Requests(locations), events);
    RequestsArePrefixed(locations);
    RegisterStepRefreshesExactly(Requests(locations), Run(Requests(locations), events).value, scheme, opener);
  }

  /** In a run where no registration overtakes an open, everything cached or being opened is the current opener's. */
  lemma RunStaysFresh(locations: seq<Location>, events: seq<Event>)
    requires Run(Requests(locations), events).Some? && NeverOvertakes(Requests(locations), events)
    ensures Fresh(Run(Requests(locations), events).value)
  {
    RequestsArePrefixed(locations);
    RunKeepsFresh(Requests(locations), events);
  }

  /** In such a run a Resolve answered from the cache gets a store of the opener registered for its scheme just then. */
  lemma CacheHitsAreCurrent(locations: seq<Location>, events: seq<Event>, t: nat)
    requires Run(Requests(locations), events).Some? && NeverOvertakes(Requests(locations), events)
    requires t < |locations| && forall u | 0 <= u < |locations| :: WellFormed(locations[u])
    requires Run(Requests(locations), events).value.phases[t].Idle?
    requires CacheKey(locations[t]) in Run(Requests(locations), events).value.tables.cache
    ensures var s := Run(Requests(locations), events).value;
            var after := Apply(Requests(locations), s, Enter(t));
            && after.Some? && after.value.phases[t].Returned? && after.value.phases[t].answer.Got?
            && after.value.phases[t].via.Some? && after.value.phases[t].via.value < |s.calls|
            && var call := s.calls[after.value.phases[t].via.value];
            && call.result == Some(after.value.phases[t].answer)
            && locations[t].scheme in s.tables.openers && s.tables.openers[locations[t].scheme] == call.opener
  {
    RunStaysFresh(locations, events);
    RunKeepsInv(Requests(locations), events);
    var s := Run(Requests(locations), events).value;
    var c := s.origin[CacheKey(locations[t])];
    assert Holds(s.calls, c, CacheKey(locations[t])) && CallOk(Requests(locations), s.calls[c], c, s.phases);
    CacheKeyInjective(locations[s.calls[c].leader], locations[t]);
  }

  /** From s, the events lead to `after`. */
  predicate Leads(requests: seq<Request>, s: State, events: seq<Event>, after: State)
    requires |s.phases| == |requests|
    decreases |events|
  {
    if events == [] then s == after
    else
      var next := Apply(requests, s, events[0]);
      next.Some? && Leads(requests, next.value, events[1..], after)
  }

  lemma {:induction false} LeadsExtendsRun(requests: seq<Request>, done: seq<Event>, events: seq<Event>, after: State)
    requires Run(requests, done).Some? && Leads(requests, Run(requests, done).value, events, after)
    ensures Run(requests, done + events) == Some(after)
    decreases |events|
  {
    if events == [] {
      assert done + events == done;
    } else {
      var longer := done + [events[0]];
      assert longer[..|longer| - 1] == done;
      assert done + events == longer + events[1..];
      LeadsExtendsRun(requests, longer, events[1..], after);
    }
  }

  /** An open in flight is overtaken by a registration, and settles afterwards. */
  lemma OvertakenOpenSettles(r: Request, first: Opener, second: Opener, store: Store) returns (s: State)
    requires !Reserved(r.scheme)
    ensures Leads([r, r], Initial([r, r]), [Register(r.scheme, first), Enter(0), Register(r.scheme, second),
                                            OpenerReturns(0, Got(store)), Settle(0)], s)
    ensures s.tables.openers == map[r.scheme := second] && s.tables.cache == map[r.key := store]
    ensures s.origin == map[r.key := 0] && s.calls == [Call(0, r, first, Some(Got(store)), false)]
    ensures s.phases == [Publishing(0), Idle]
  {
    var requests := [r, r];
    var s1 := Apply(requests, Initial(requests), Register(r.scheme, first)).value;
    assert s1.tables == Tables(map[r.scheme := first], map[], map[]) && s1.phases == [Idle, Idle];
    var s2 := Entered(requests, s1, 0);
    assert s2.tables == Tables(map[r.scheme := first], map[], map[r.key := 0]) && s2.phases == [Opening(0), Idle];
    var s3 := Apply(requests, s2, Register(r.scheme, second)).value;
    assert s3.tables == Tables(map[r.scheme := second], map[], map[r.key := 0]);
    var s4 := Apply(requests, s3, OpenerReturns(0, Got(store))).value;
    s := SettledBy(requests, s4, 0);
    var e5 := [Settle(0)];
    var e4 := [OpenerReturns(0, Got(store))] + e5;
    var e3 := [Register(r.scheme, second)] + e4;
    var e2 := [Enter(0)] + e3;
    assert Leads(requests, s, e5[1..], s) && Leads(requests, s4, e5, s);
    assert e4[1..] == e5 && Leads(requests, s3, e4, s);
    assert e3[1..] == e4 && Leads(requests, s2, e3, s);
    assert e2[1..] == e3 && Leads(requests, s1, e2, s);
    var e1 := [Register(r.scheme, first)] + e2;
    assert e1[1..] == e2 && Leads(requests, Initial(requests), e1, s);
    assert e1 == [Register(r.scheme, first), Enter(0), Register(r.scheme, second), OpenerReturns(0, Got(store)),
                  Settle(0)];
  }

  /** The case the documentation of Register leaves out: a later Resolve still gets the replaced opener's store. */
  lemma OvertakenOpenStaysCached(r: Request, first: Opener, second: Opener, store: Store) returns (events: seq<Event>)
    requires !Reserved(r.scheme)
    ensures Run([r, r], events).Some?
    ensures var s := Run([r, r], events).value;
            && s.phases[1] == Returned(Got(store), Some(0)) && |s.calls| == 1 && s.calls[0].opener == first
            && s.tables.openers == map[r.scheme := second]
  {
    var start := [Register(r.scheme, first), Enter(0), Register(r.scheme, second), OpenerReturns(0, Got(store)),
                  Settle(0)];
    var s := OvertakenOpenSettles(r, first, second, store);
    LeadsExtendsRun([r, r], [], start, s);
    events := start + [Enter(1)];
    assert [] + start == start;
    assert events[..|events| - 1] == start;
  }
}
