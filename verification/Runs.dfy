/**
 Runs of a step function. A protocol is a total function `step(state, event)`;
 an interleaving of any number of requests is an arbitrary sequence of events,
 and an event that is not enabled leaves the state as it is.
 */
module Runs {

  function Run<S, E>(step: (S, E) -> S, s: S, events: seq<E>): S {
    if events == [] then s else Run(step, step(s, events[0]), events[1..])
  }

  /** Every event of the run is admitted by `ok` in the state it meets. */
  ghost predicate Admitted<S, E>(step: (S, E) -> S, ok: (S, E) -> bool, s: S, events: seq<E>) {
    events == [] || (ok(s, events[0]) && Admitted(step, ok, step(s, events[0]), events[1..]))
  }

  lemma {:induction false} RunSnoc<S, E>(step: (S, E) -> S, s: S, events: seq<E>, e: E)
    ensures Run(step, s, events + [e]) == step(Run(step, s, events), e)
  {
    if events == [] {
      assert events + [e] == [e];
    } else {
      assert (events + [e])[1..] == events[1..] + [e];
      RunSnoc(step, step(s, events[0]), events[1..], e);
    }
  }

  lemma {:induction false} RunAppend<S, E>(step: (S, E) -> S, s: S, before: seq<E>, after: seq<E>)
    ensures Run(step, s, before + after) == Run(step, Run(step, s, before), after)
  {
    if before == [] {
      assert before + after == after;
    } else {
      assert (before + after)[1..] == before[1..] + after;
      RunAppend(step, step(s, before[0]), before[1..], after);
    }
  }

  lemma RunOne<S, E>(step: (S, E) -> S, s: S, e: E)
    ensures Run(step, s, [e]) == step(s, e)
  {
    assert [e][1..] == [];
  }

  /** What every admitted step keeps holds at the end of every admitted run. */
  lemma {:induction false} InvariantOfAdmitted<S(!new), E(!new)>(
      step: (S, E) -> S, ok: (S, E) -> bool, inv: S -> bool, s: S, events: seq<E>)
    requires inv(s)
    requires Admitted(step, ok, s, events)
    requires forall t, e :: inv(t) && ok(t, e) ==> inv(step(t, e))
    ensures inv(Run(step, s, events))
  {
    if events != [] {
      InvariantOfAdmitted(step, ok, inv, step(s, events[0]), events[1..]);
    }
  }

  /** What every step keeps holds at the end of every run. */
  lemma {:induction false} Invariant<S(!new), E(!new)>(
      step: (S, E) -> S, inv: S -> bool, s: S, events: seq<E>)
    requires inv(s)
    requires forall t, e :: inv(t) ==> inv(step(t, e))
    ensures inv(Run(step, s, events))
  {
    if events != [] {
      Invariant(step, inv, step(s, events[0]), events[1..]);
    }
  }
}
