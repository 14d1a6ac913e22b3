/** Runs of a machine whose steps may be refused: the state after a schedule, if every step was taken. */
module Schedules {
  import opened Options

  function Run<S, A>(step: (S, A) -> Option<S>, s: S, acts: seq<A>): Option<S>
    decreases |acts|
  {
    if acts == [] then Some(s)
    else
      match step(s, acts[0])
      case None => None
      case Some(m) => Run(step, m, acts[1..])
  }

  lemma Empty<S, A>(step: (S, A) -> Option<S>, s: S)
    ensures Run(step, s, []) == Some(s)
  {
  }

  /** The first step of a schedule. */
  lemma First<S, A>(step: (S, A) -> Option<S>, s: S, acts: seq<A>, m: S, rest: seq<A>)
    requires |acts| > 0 && acts == [acts[0]] + rest && step(s, acts[0]) == Some(m)
    ensures Run(step, s, acts) == Run(step, m, rest)
  {
    assert acts[1..] == rest;
  }

  lemma {:induction false} Split<S, A>(step: (S, A) -> Option<S>, s: S, xs: seq<A>, ys: seq<A>)
    ensures Run(step, s, xs + ys) == match Run(step, s, xs) case None => None case Some(m) => Run(step, m, ys)
    decreases |xs|
  {
    if xs == [] {
      assert xs + ys == ys;
    } else {
      assert (xs + ys)[1..] == xs[1..] + ys;
      if step(s, xs[0]).Some? {
        Split(step, step(s, xs[0]).value, xs[1..], ys);
      }
    }
  }

  /** What every step keeps, every run keeps. */
  lemma {:induction false} Keeps<S(!new), A(!new)>(step: (S, A) -> Option<S>, inv: S -> bool, s: S, acts: seq<A>)
    requires forall x, a :: inv(x) && step(x, a).Some? ==> inv(step(x, a).value)
    requires inv(s) && Run(step, s, acts).Some?
    ensures inv(Run(step, s, acts).value)
    decreases |acts|
  {
    if acts != [] {
      Keeps(step, inv, step(s, acts[0]).value, acts[1..]);
    }
  }
}
