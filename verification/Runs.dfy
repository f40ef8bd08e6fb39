/** Runs of a deterministic transition system under an arbitrary sequence of actions. */
module Runs {

  ghost function Run<S, A>(next: (S, A) -> S, s: S, actions: seq<A>): S {
    if actions == [] then s else Run(next, next(s, actions[0]), actions[1..])
  }

  /** The sum of what each action costs in the state it acts on. */
  ghost function Total<S, A>(next: (S, A) -> S, cost: (S, A) -> nat, s: S, actions: seq<A>): nat {
    if actions == [] then 0
    else cost(s, actions[0]) + Total(next, cost, next(s, actions[0]), actions[1..])
  }

  lemma {:induction false} RunAppend<S, A>(next: (S, A) -> S, s: S, a: seq<A>, b: seq<A>)
    ensures Run(next, s, a + b) == Run(next, Run(next, s, a), b)
  {
    if a == [] {
      assert a + b == b;
    } else {
      RunAppend(next, next(s, a[0]), a[1..], b);
      assert (a + b)[1..] == a[1..] + b;
    }
  }

  lemma RunSnoc<S, A>(next: (S, A) -> S, s: S, a: seq<A>, x: A)
    ensures Run(next, s, a + [x]) == next(Run(next, s, a), x)
  {
    RunAppend(next, s, a, [x]);
    var t := Run(next, s, a);
    assert [x][1..] == [];
    assert Run(next, t, [x]) == Run(next, next(t, x), []);
  }

  /** An invariant of every action is an invariant of every run. */
  lemma {:induction false} RunInvariant<S(!new), A(!new)>(next: (S, A) -> S, inv: S -> bool, s: S, actions: seq<A>)
    requires inv(s)
    requires forall t, x :: inv(t) ==> inv(next(t, x))
    ensures inv(Run(next, s, actions))
  {
    if actions != [] {
      RunInvariant(next, inv, next(s, actions[0]), actions[1..]);
    }
  }

  /** A potential that pays for every action bounds the cost of every run. */
  lemma {:induction false} RunPotential<S(!new), A(!new)>(next: (S, A) -> S, inv: S -> bool, cost: (S, A) -> nat,
                                                         phi: S -> int, s: S, actions: seq<A>)
    requires inv(s)
    requires forall t, x :: inv(t) ==> inv(next(t, x)) && phi(next(t, x)) + cost(t, x) <= phi(t)
    ensures Total(next, cost, s, actions) + phi(Run(next, s, actions)) <= phi(s)
  {
    if actions != [] {
      RunPotential(next, inv, cost, phi, next(s, actions[0]), actions[1..]);
    }
  }
}
