/** Runs of a step system: which states its steps can reach, and what holds in all of them. */
module Runs {

  /** The steps can be taken one after the other. */
  ghost predicate Possible<S(!new), T(!new)>(can: (S, T) -> bool, next: (S, T) -> S, s: S, steps: seq<T>)
    decreases |steps|
  {
    steps == [] || (can(s, steps[0]) && Possible(can, next, next(s, steps[0]), steps[1..]))
  }

  ghost function After<S(!new), T(!new)>(next: (S, T) -> S, s: S, steps: seq<T>): S
    decreases |steps|
  {
    if steps == [] then s else After(next, next(s, steps[0]), steps[1..])
  }

  /** Some run, any number of steps in any order in which they are possible, leads from one state to the other. */
  ghost predicate Reachable<S(!new), T(!new)>(can: (S, T) -> bool, next: (S, T) -> S, from: S, to: S) {
    exists steps :: Possible(can, next, from, steps) && After(next, from, steps) == to
  }

  /** Every step that is possible keeps the property. */
  ghost predicate Keeps<S(!new), T(!new)>(can: (S, T) -> bool, next: (S, T) -> S, inv: S -> bool) {
    forall s, step :: inv(s) && can(s, step) ==> inv(next(s, step))
  }

  lemma {:induction false} InvAfter<S(!new), T(!new)>(
    can: (S, T) -> bool, next: (S, T) -> S, inv: S -> bool, s: S, steps: seq<T>)
    requires Keeps(can, next, inv) && inv(s) && Possible(can, next, s, steps)
    ensures inv(After(next, s, steps))
    decreases |steps|
  {
    if steps != [] {
      InvAfter(can, next, inv, next(s, steps[0]), steps[1..]);
    }
  }

  /** What every step keeps holds in every reachable state if it holds at the start. */
  lemma Invariant<S(!new), T(!new)>(can: (S, T) -> bool, next: (S, T) -> S, inv: S -> bool, from: S, to: S)
    requires Keeps(can, next, inv) && inv(from) && Reachable(can, next, from, to)
    ensures inv(to)
  {
    var steps :| Possible(can, next, from, steps) && After(next, from, steps) == to;
    InvAfter(can, next, inv, from, steps);
  }

  lemma Here<S(!new), T(!new)>(can: (S, T) -> bool, next: (S, T) -> S, s: S)
    ensures Reachable(can, next, s, s)
  {
    assert Possible(can, next, s, []) && After(next, s, []) == s;
  }

  lemma {:induction false} Extend<S(!new), T(!new)>(
    can: (S, T) -> bool, next: (S, T) -> S, s: S, steps: seq<T>, step: T)
    requires Possible(can, next, s, steps) && can(After(next, s, steps), step)
    ensures Possible(can, next, s, steps + [step])
    ensures After(next, s, steps + [step]) == next(After(next, s, steps), step)
    decreases |steps|
  {
    if steps == [] {
      assert ([] + [step])[1..] == [];
    } else {
      assert (steps + [step])[1..] == steps[1..] + [step];
      Extend(can, next, next(s, steps[0]), steps[1..], step);
    }
  }

  /** One more step. */
  lemma Further<S(!new), T(!new)>(can: (S, T) -> bool, next: (S, T) -> S, from: S, s: S, step: T)
    requires Reachable(can, next, from, s) && can(s, step)
    ensures Reachable(can, next, from, next(s, step))
  {
    var steps :| Possible(can, next, from, steps) && After(next, from, steps) == s;
    Extend(can, next, from, steps, step);
  }

  lemma {:induction false} Append<S(!new), T(!new)>(
    can: (S, T) -> bool, next: (S, T) -> S, s: S, a: seq<T>, b: seq<T>)
    requires Possible(can, next, s, a) && Possible(can, next, After(next, s, a), b)
    ensures Possible(can, next, s, a + b) && After(next, s, a + b) == After(next, After(next, s, a), b)
    decreases |a|
  {
    if a == [] {
      assert a + b == b;
    } else {
      assert (a + b)[0] == a[0] && (a + b)[1..] == a[1..] + b;
      Append(can, next, next(s, a[0]), a[1..], b);
    }
  }

  /** Runs one after the other are a run. */
  lemma Transitive<S(!new), T(!new)>(can: (S, T) -> bool, next: (S, T) -> S, from: S, s: S, to: S)
    requires Reachable(can, next, from, s) && Reachable(can, next, s, to)
    ensures Reachable(can, next, from, to)
  {
    var a :| Possible(can, next, from, a) && After(next, from, a) == s;
    var b :| Possible(can, next, s, b) && After(next, s, b) == to;
    Append(can, next, from, a, b);
  }
}
