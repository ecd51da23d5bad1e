/** Steps left to take, summed over goroutines: what bounds the length of a run. */
module Work {

  function Total<P>(work: P -> nat, phases: seq<P>): nat {
    if phases == [] then 0 else work(phases[0]) + Total(work, phases[1..])
  }

  lemma {:induction false} TotalUpdate<P>(work: P -> nat, phases: seq<P>, t: nat, phase: P)
    requires t < |phases|
    ensures Total(work, phases[t := phase]) == Total(work, phases) - work(phases[t]) + work(phase)
  {
    if t > 0 {
      TotalUpdate(work, phases[1..], t - 1, phase);
      assert phases[t := phase][1..] == phases[1..][t - 1 := phase];
    } else {
      assert phases[t := phase][1..] == phases[1..];
    }
  }

  lemma {:induction false} TotalOfEqual<P>(work: P -> nat, phases: seq<P>, each: nat)
    requires forall t | 0 <= t < |phases| :: work(phases[t]) == each
    ensures Total(work, phases) == each * |phases|
  {
    if phases != [] {
      TotalOfEqual(work, phases[1..], each);
      assert each * |phases| == each + each * |phases[1..]|;
    }
  }
}
