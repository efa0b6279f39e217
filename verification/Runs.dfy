/** Runs of an event-driven state machine.

    Every protocol in this project is a total function `step: (S, E) -> S`: an event whose guard
    does not hold leaves the state as it was. A run is then any sequence of events at all, and
    "in every reachable state" reads "after every event sequence". */
module Runs {

  /** The state reached from `s` by the events `es`, in order. */
  function Exec<S, E>(step: (S, E) -> S, s: S, es: seq<E>): S
    decreases |es|
  {
    if es == [] then s else Exec(step, step(s, es[0]), es[1..])
  }

  /** What one step keeps, every run keeps. */
  lemma {:induction false} InvariantHolds<S(!new), E(!new)>(step: (S, E) -> S, inv: S -> bool, s: S, es: seq<E>)
    requires inv(s)
    requires forall s0, e :: inv(s0) ==> inv(step(s0, e))
    ensures inv(Exec(step, s, es))
    decreases |es|
  {
    if es != [] {
      InvariantHolds(step, inv, step(s, es[0]), es[1..]);
    }
  }

  /** How many events of a run are of a kind, judged where they come. */
  function Count<S, E>(step: (S, E) -> S, s: S, es: seq<E>, kind: (S, E) -> bool): nat
    decreases |es|
  {
    if es == [] then 0 else (if kind(s, es[0]) then 1 else 0) + Count(step, step(s, es[0]), es[1..], kind)
  }

  /** A run may be cut anywhere. */
  lemma {:induction false} ExecSplit<S, E>(step: (S, E) -> S, s: S, es: seq<E>, fs: seq<E>)
    ensures Exec(step, s, es + fs) == Exec(step, Exec(step, s, es), fs)
    decreases |es|
  {
    if es == [] {
      assert es + fs == fs;
    } else {
      assert (es + fs)[1..] == es[1..] + fs;
      ExecSplit(step, step(s, es[0]), es[1..], fs);
    }
  }

  /** One more event is one more step. */
  lemma ExecSnoc<S, E>(step: (S, E) -> S, s: S, es: seq<E>, e: E)
    ensures Exec(step, s, es + [e]) == step(Exec(step, s, es), e)
  {
    ExecSplit(step, s, es, [e]);
    assert Exec(step, Exec(step, s, es), [e]) == step(Exec(step, s, es), e);
  }
}
