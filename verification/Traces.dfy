/** Folding events over a state, and what persists along the way. */
module Traces {

  function After<S, E>(step: (S, E) -> S, init: S, events: seq<E>): S {
    if events == [] then init else step(After(step, init, events[..|events| - 1]), events[|events| - 1])
  }

  lemma AfterNext<S, E>(step: (S, E) -> S, init: S, events: seq<E>, i: nat)
    requires i < |events|
    ensures After(step, init, events[..i + 1]) == step(After(step, init, events[..i]), events[i])
  {
    assert events[..i + 1][..i] == events[..i];
  }

  lemma KeptOnce<S(!new), E(!new)>(
      step: (S, E) -> S, init: S, events: seq<E>, i: nat, fact: S -> bool, quiet: (S, E) -> bool)
    requires i < |events| && fact(After(step, init, events[..i]))
    requires forall s, e :: fact(s) && quiet(s, e) ==> fact(step(s, e))
    requires quiet(After(step, init, events[..i]), events[i])
    ensures fact(After(step, init, events[..i + 1]))
  {
    AfterNext(step, init, events, i);
  }

  /** A fact that holds before event `a`, and that the events from there on keep, holds before event `c`. */
  lemma {:induction false} Stays<S(!new), E(!new)>(
      step: (S, E) -> S, init: S, events: seq<E>, a: nat, c: nat, fact: S -> bool, quiet: (S, E) -> bool)
    requires a <= c <= |events| && fact(After(step, init, events[..a]))
    requires forall s, e :: fact(s) && quiet(s, e) ==> fact(step(s, e))
    requires forall i | a <= i < c :: quiet(After(step, init, events[..i]), events[i])
    ensures fact(After(step, init, events[..c]))
  {
    if a < c {
      Stays(step, init, events, a, c - 1, fact, quiet);
      KeptOnce(step, init, events, c - 1, fact, quiet);
    }
  }

  /** A fact that holds after event `a`, and that the events between keep, holds before event `c`. */
  lemma Persists<S(!new), E(!new)>(
      step: (S, E) -> S, init: S, events: seq<E>, a: nat, c: nat, fact: S -> bool, quiet: (S, E) -> bool)
    requires a < c <= |events|
    requires fact(step(After(step, init, events[..a]), events[a]))
    requires forall s, e :: fact(s) && quiet(s, e) ==> fact(step(s, e))
    requires forall i | a < i < c :: quiet(After(step, init, events[..i]), events[i])
    ensures fact(After(step, init, events[..c]))
  {
    AfterNext(step, init, events, a);
    Stays(step, init, events, a + 1, c, fact, quiet);
  }

  /** A fact that every event keeps holds after any events. */
  lemma {:induction false} AlwaysHolds<S(!new), E(!new)>(
      step: (S, E) -> S, init: S, events: seq<E>, fact: S -> bool, allowed: E -> bool)
    requires fact(init)
    requires forall s, e :: fact(s) && allowed(e) ==> fact(step(s, e))
    requires forall i | 0 <= i < |events| :: allowed(events[i])
    ensures fact(After(step, init, events))
  {
    if events != [] {
      AlwaysHolds(step, init, events[..|events| - 1], fact, allowed);
    }
  }
}
