/** Runs of any deterministic machine: what each operation did, in order. */
module Traces {

  /** The state after the first `n` operations, and their events. */
  function Trace<State, Op, Event>(step: (State, Op) -> (State, Event), s: State, ops: seq<Op>, n: nat)
    : (r: (State, seq<Event>))
    requires n <= |ops|
    ensures |r.1| == n
    decreases n
  {
    if n == 0 then (s, [])
    else
      var (now, events) := Trace(step, s, ops, n - 1);
      var (next, event) := step(now, ops[n - 1]);
      (next, events + [event])
  }

  /** What is true at the start and kept by every operation is true after every run. */
  lemma {:induction false} Always<State, Op, Event>(
    step: (State, Op) -> (State, Event), s: State, ops: seq<Op>, n: nat, p: (State, seq<Event>) -> bool)
    requires n <= |ops| && p(s, [])
    requires forall now, events, op :: p(now, events) ==> p(step(now, op).0, events + [step(now, op).1])
    ensures p(Trace(step, s, ops, n).0, Trace(step, s, ops, n).1)
    decreases n
  {
    if n > 0 {
      Always(step, s, ops, n - 1, p);
      var (now, events) := Trace(step, s, ops, n - 1);
      var (next, event) := step(now, ops[n - 1]);
      assert p(now, events);
      assert p(step(now, ops[n - 1]).0, events + [step(now, ops[n - 1]).1]);
    }
  }

  /** What every operation keeps stays true from then on. */
  lemma {:induction false} Stays<State, Op, Event>(
    step: (State, Op) -> (State, Event), s: State, ops: seq<Op>, k: nat, n: nat, p: State -> bool)
    requires k <= n <= |ops| && p(Trace(step, s, ops, k).0)
    requires forall now, op :: p(now) ==> p(step(now, op).0)
    ensures p(Trace(step, s, ops, n).0)
    decreases n
  {
    if k < n {
      Stays(step, s, ops, k, n - 1, p);
      var (now, _) := Trace(step, s, ops, n - 1);
      var (next, _) := step(now, ops[n - 1]);
      assert p(now);
      assert p(step(now, ops[n - 1]).0);
    }
  }

  /** Each event is that of its operation in the state that the run has come to. */
  lemma {:induction false} EventAt<State, Op, Event>(
    step: (State, Op) -> (State, Event), s: State, ops: seq<Op>, n: nat, k: nat)
    requires k < n <= |ops|
    ensures Trace(step, s, ops, n).1[k] == step(Trace(step, s, ops, k).0, ops[k]).1
    decreases n
  {
    if k < n - 1 {
      EventAt(step, s, ops, n - 1, k);
    }
  }

  /** The next state is that of the next operation. */
  lemma StateAfter<State, Op, Event>(
    step: (State, Op) -> (State, Event), s: State, ops: seq<Op>, n: nat)
    requires n < |ops|
    ensures Trace(step, s, ops, n + 1).0 == step(Trace(step, s, ops, n).0, ops[n]).0
  {
  }

  lemma OneMore<State, Op, Event>(
    step: (State, Op) -> (State, Event), s: State, ops: seq<Op>, n: nat, now: State, events: seq<Event>)
    requires n < |ops| && Trace(step, s, ops, n) == (now, events)
    ensures Trace(step, s, ops, n + 1) == (step(now, ops[n]).0, events + [step(now, ops[n]).1])
  {
  }

  lemma ThreeSteps<State, Op, Event>(step: (State, Op) -> (State, Event), s: State, a: Op, b: Op, c: Op)
    ensures var s1 := step(s, a);
      var s2 := step(s1.0, b);
      var s3 := step(s2.0, c);
      Trace(step, s, [a, b, c], 3) == (s3.0, [s1.1] + [s2.1] + [s3.1])
  {
    var ops := [a, b, c];
    assert Trace(step, s, ops, 0) == (s, []);
    OneMore(step, s, ops, 0, s, []);
    var s1 := step(s, a);
    assert [] + [s1.1] == [s1.1];
    OneMore(step, s, ops, 1, s1.0, [s1.1]);
    OneMore(step, s, ops, 2, step(s1.0, b).0, [s1.1] + [step(s1.0, b).1]);
  }
}
