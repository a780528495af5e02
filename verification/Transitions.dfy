// Runs of a step relation.
module Transitions {

  /** `run` leads from `s` to `t`. */
  ghost predicate Runs<S(!new), A>(step: (S, A, S) -> bool, s: S, run: seq<A>, t: S)
    decreases |run|
  {
    if run == [] then s == t
    else exists mid :: Runs(step, s, Front(run), mid) && step(mid, Last(run), t)
  }

  ghost function Front<A>(run: seq<A>): (r: seq<A>)
    requires run != []
    ensures |r| == |run| - 1
  {
    run[..|run| - 1]
  }

  ghost function Last<A>(run: seq<A>): A
    requires run != []
  {
    run[|run| - 1]
  }

  /** What every step keeps, every run keeps. */
  lemma {:induction false} RunsKeep<S(!new), A(!new)>(step: (S, A, S) -> bool, inv: S -> bool, s: S, run: seq<A>, t: S)
    requires inv(s) && Runs(step, s, run, t)
    requires forall x, a, y :: inv(x) && step(x, a, y) ==> inv(y)
    ensures inv(t)
    decreases |run|
  {
    if run != [] {
      var mid :| Runs(step, s, Front(run), mid) && step(mid, Last(run), t);
      RunsKeep(step, inv, s, Front(run), mid);
      assert step(mid, Last(run), t);
    }
  }

  /** If every quiet step leaves less work, quiet runs take no more steps than there is work. */
  lemma {:induction false} QuietRunsAreBounded<S(!new), A(!new)>(
      step: (S, A, S) -> bool, inv: S -> bool, quiet: A -> bool, work: S -> nat, s: S, run: seq<A>, t: S)
    requires inv(s) && Runs(step, s, run, t) && forall a :: a in run ==> quiet(a)
    requires forall x, a, y :: inv(x) && quiet(a) && step(x, a, y) ==> inv(y) && work(y) < work(x)
    ensures |run| + work(t) <= work(s) && inv(t)
    decreases |run|
  {
    if run != [] {
      var mid :| Runs(step, s, Front(run), mid) && step(mid, Last(run), t);
      assert Last(run) in run;
      QuietRunsAreBounded(step, inv, quiet, work, s, Front(run), mid);
      assert step(mid, Last(run), t);
    }
  }

  lemma OneStepMore<S(!new), A>(step: (S, A, S) -> bool, s: S, run: seq<A>, mid: S, a: A, t: S)
    requires Runs(step, s, run, mid) && step(mid, a, t)
    ensures Runs(step, s, run + [a], t)
  {
    assert Front(run + [a]) == run && Last(run + [a]) == a;
  }

  lemma NoStep<S(!new), A>(step: (S, A, S) -> bool, s: S)
    ensures Runs(step, s, [], s)
  {
  }

  /** The run after one more step. */
  lemma GoOn<S(!new), A>(step: (S, A, S) -> bool, s: S, run: seq<A>, mid: S, a: A, t: S) returns (longer: seq<A>)
    requires Runs(step, s, run, mid) && step(mid, a, t)
    ensures Runs(step, s, longer, t)
  {
    longer := run + [a];
    OneStepMore(step, s, run, mid, a, t);
  }
}
