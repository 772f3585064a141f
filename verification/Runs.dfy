/** Finite runs of a protocol. A protocol is a step function; its precondition says which events are
    enabled in a state. */
module Runs {

  ghost predicate IsRun<S, E>(step: (S, E) --> S, s: S, es: seq<E>)
    decreases |es|
  {
    es == [] || (step.requires(s, es[0]) && IsRun(step, step(s, es[0]), es[1..]))
  }

  ghost function End<S, E>(step: (S, E) --> S, s: S, es: seq<E>): S
    requires IsRun(step, s, es)
    decreases |es|
  {
    if es == [] then s else End(step, step(s, es[0]), es[1..])
  }

  /** No state of the run is bad. */
  ghost predicate Avoids<S, E>(step: (S, E) --> S, bad: S -> bool, s: S, es: seq<E>)
    requires IsRun(step, s, es)
    decreases |es|
  {
    !bad(s) && (es != [] ==> Avoids(step, bad, step(s, es[0]), es[1..]))
  }

  /** No event of the run is one that `guard` names in the state it happens in. */
  ghost predicate Never<S, E>(step: (S, E) --> S, guard: (S, E) -> bool, s: S, es: seq<E>)
    requires IsRun(step, s, es)
    decreases |es|
  {
    es != [] ==> !guard(s, es[0]) && Never(step, guard, step(s, es[0]), es[1..])
  }

  lemma One<S, E>(step: (S, E) --> S, s: S, e: E)
    requires step.requires(s, e)
    ensures IsRun(step, s, [e]) && End(step, s, [e]) == step(s, e)
  {
    assert [e][1..] == [];
  }

  lemma Two<S, E>(step: (S, E) --> S, s: S, a: E, b: E)
    requires step.requires(s, a) && step.requires(step(s, a), b)
    ensures IsRun(step, s, [a, b]) && End(step, s, [a, b]) == step(step(s, a), b)
  {
    One(step, step(s, a), b);
    assert [a, b][1..] == [b];
  }

  /** A run of four events, given by the states it passes through. */
  lemma Four<S, E>(step: (S, E) --> S, s: S, a: E, s1: S, b: E, s2: S, c: E, s3: S, d: E, s4: S)
    requires step.requires(s, a) && step(s, a) == s1 && step.requires(s1, b) && step(s1, b) == s2
    requires step.requires(s2, c) && step(s2, c) == s3 && step.requires(s3, d) && step(s3, d) == s4
    ensures IsRun(step, s, [a, b, c, d]) && End(step, s, [a, b, c, d]) == s4
  {
    Two(step, s2, c, d);
    Two(step, s, a, b);
    Concat(step, s, [a, b], [c, d]);
    assert [a, b] + [c, d] == [a, b, c, d];
  }

  lemma {:induction false} Concat<S, E>(step: (S, E) --> S, s: S, es: seq<E>, fs: seq<E>)
    requires IsRun(step, s, es) && IsRun(step, End(step, s, es), fs)
    ensures IsRun(step, s, es + fs) && End(step, s, es + fs) == End(step, End(step, s, es), fs)
    decreases |es|
  {
    if es == [] {
      assert es + fs == fs;
    } else {
      Concat(step, step(s, es[0]), es[1..], fs);
      assert (es + fs)[1..] == es[1..] + fs;
    }
  }

  ghost predicate Kept<S(!new), E(!new)>(step: (S, E) --> S, inv: S -> bool) {
    forall s: S, e: E {:trigger step(s, e)} | inv(s) && step.requires(s, e) :: inv(step(s, e))
  }

  /** What every step keeps, every run keeps. */
  lemma {:induction false} KeepsInvariant<S(!new), E(!new)>(step: (S, E) --> S, inv: S -> bool, s: S, es: seq<E>)
    requires Kept(step, inv) && inv(s) && IsRun(step, s, es)
    ensures inv(End(step, s, es))
    decreases |es|
  {
    if es != [] {
      KeepsInvariant(step, inv, step(s, es[0]), es[1..]);
    }
  }

  /** From a state that is not bad, the guard says exactly when one step leads to a bad one. */
  ghost predicate Decides<S(!new), E(!new)>(step: (S, E) --> S, inv: S -> bool, bad: S -> bool, guard: (S, E) -> bool) {
    forall s: S, e: E {:trigger step(s, e)} | inv(s) && !bad(s) && step.requires(s, e) :: bad(step(s, e)) <==> guard(s, e)
  }

  /** Then a run avoids the bad states if and only if the guarded events never happen in it. */
  lemma {:induction false} AvoidsExactly<S(!new), E(!new)>(
    step: (S, E) --> S, inv: S -> bool, bad: S -> bool, guard: (S, E) -> bool, s: S, es: seq<E>)
    requires Kept(step, inv) && Decides(step, inv, bad, guard)
    requires inv(s) && !bad(s) && IsRun(step, s, es)
    ensures Avoids(step, bad, s, es) <==> Never(step, guard, s, es)
    decreases |es|
  {
    if es != [] {
      var t := step(s, es[0]);
      if guard(s, es[0]) {
        assert bad(t);
      } else {
        AvoidsExactly(step, inv, bad, guard, t, es[1..]);
      }
    }
  }
}
