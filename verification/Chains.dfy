/** Sequences of states in which every state follows from the one before it by an event. */
module Chains {

  ghost predicate Chain<S, E>(next: (S, E, S) -> bool, states: seq<S>, events: seq<E>) {
    && |states| == |events| + 1
    && forall x :: 0 <= x < |events| ==> next(states[x], events[x], states[x + 1])
  }

  /** t can follow on s. */
  ghost predicate Leads<S(!new), E(!new)>(next: (S, E, S) -> bool, s: S, t: S) {
    exists states, events :: ChainFromTo(next, states, events, s, t)
  }

  ghost predicate ChainFromTo<S, E>(next: (S, E, S) -> bool, states: seq<S>, events: seq<E>, s: S, t: S) {
    Chain(next, states, events) && states[0] == s && states[|events|] == t
  }

  lemma LeadsNow<S(!new), E(!new)>(next: (S, E, S) -> bool, s: S)
    ensures Leads(next, s, s)
  {
    assert ChainFromTo(next, [s], [], s, s);
  }

  lemma LeadsNext<S(!new), E(!new)>(next: (S, E, S) -> bool, s: S, t: S, e: E, u: S)
    requires Leads(next, s, t) && next(t, e, u)
    ensures Leads(next, s, u)
  {
    var states: seq<S>, events: seq<E> :| ChainFromTo(next, states, events, s, t);
    var more, also := states + [u], events + [e];
    forall x | 0 <= x < |also| ensures next(more[x], also[x], more[x + 1]) {
      if x < |events| { assert next(states[x], events[x], states[x + 1]); }
    }
    assert ChainFromTo(next, more, also, s, u);
  }

  /** A chain up to its i-th state, and what follows there, are a chain. */
  lemma Continue<S, E>(next: (S, E, S) -> bool, states: seq<S>, events: seq<E>, i: nat, rest: seq<S>, more: seq<E>)
    requires Chain(next, states, events) && Chain(next, rest, more) && i < |states| && rest[0] == states[i]
    ensures Chain(next, states[..i] + rest, events[..i] + more)
    ensures (states[..i] + rest)[..i + 1] == states[..i + 1] && (events[..i] + more)[..i] == events[..i]
    ensures |events[..i] + more| == i + |more| && (states[..i] + rest)[i + |more|] == rest[|more|]
  {
    var run, steps := states[..i] + rest, events[..i] + more;
    forall x | 0 <= x < |steps| ensures next(run[x], steps[x], run[x + 1]) {
      if x < i {
        assert run[x] == states[x] && run[x + 1] == states[x + 1] && steps[x] == events[x];
      } else {
        assert run[x] == rest[x - i] && run[x + 1] == rest[x - i + 1] && steps[x] == more[x - i];
      }
    }
  }

  /** A counter that is beyond a line and was not before passes it somewhere in between. */
  lemma {:induction false} Passes(counter: seq<nat>, k: nat, i: nat, line: nat) returns (j: nat)
    requires k <= i < |counter| && counter[k] <= line < counter[i]
    ensures k <= j < i && counter[j] <= line < counter[j + 1]
  {
    if counter[i - 1] > line { j := Passes(counter, k, i - 1, line); } else { j := i - 1; }
  }
}
