/** Finite executions of a step relation, and what an invariant and a measure say about all of them. */
module Runs {
  import opened Lists

  /** states[i] --actions[i]--> states[i + 1]. */
  datatype Run<S, A> = Run(states: seq<S>, actions: seq<A>)
  {
    predicate WellFormed() { |states| == |actions| + 1 }
    function Last(): S requires WellFormed() { states[|actions|] }
  }

  ghost predicate Follows<S(!new), A(!new)>(r: Run<S, A>, init: S, step: (S, A, S) -> bool)
  {
    && r.WellFormed()
    && r.states[0] == init
    && forall i :: 0 <= i < |r.actions| ==> step(r.states[i], r.actions[i], r.states[i + 1])
  }

  /** Dropping the last step of a run leaves a run. */
  function Shorter<S, A>(r: Run<S, A>): (q: Run<S, A>)
    requires r.WellFormed() && r.actions != []
    ensures q.WellFormed()
  {
    Run(r.states[..|r.states| - 1], r.actions[..|r.actions| - 1])
  }

  /** Adding a possible step leaves a run. */
  function Longer<S, A>(r: Run<S, A>, a: A, t: S): Run<S, A> { Run(r.states + [t], r.actions + [a]) }

  lemma LongerFollows<S(!new), A(!new)>(r: Run<S, A>, init: S, step: (S, A, S) -> bool, a: A, t: S)
    requires Follows(r, init, step) && step(r.Last(), a, t)
    ensures Follows(Longer(r, a, t), init, step) && Longer(r, a, t).Last() == t
  {
    var q := Longer(r, a, t);
    forall i | 0 <= i < |q.actions| ensures step(q.states[i], q.actions[i], q.states[i + 1]) {
      if i < |r.actions| { assert step(r.states[i], r.actions[i], r.states[i + 1]); }
    }
  }

  /** q goes on from where r ends. */
  predicate Extends<S(==), A(==)>(q: Run<S, A>, r: Run<S, A>) { r.states <= q.states && r.actions <= q.actions }

  /** An inductive invariant holds in every state of every run. */
  lemma {:induction false} InvariantHolds<S(!new), A(!new)>(r: Run<S, A>, init: S, step: (S, A, S) -> bool, inv: S -> bool)
    requires Follows(r, init, step)
    requires inv(init)
    requires forall s, a, t :: inv(s) && step(s, a, t) ==> inv(t)
    ensures forall i :: 0 <= i < |r.states| ==> inv(r.states[i])
    decreases |r.actions|
  {
    if r.actions != [] {
      var q := Shorter(r);
      InvariantHolds(q, init, step, inv);
      var n := |r.actions| - 1;
      assert inv(q.states[n]) && q.states[n] == r.states[n];
      assert step(r.states[n], r.actions[n], r.states[n + 1]);
      forall i | 0 <= i < |r.states| ensures inv(r.states[i]) {
        if i <= n { assert r.states[i] == q.states[i]; }
      }
    }
  }

  lemma {:induction false} CountSnoc<T>(p: T -> bool, xs: seq<T>, x: T)
    ensures Count(p, xs + [x]) == Count(p, xs) + (if p(x) then 1 else 0)
  {
    if xs == [] {
      assert [] + [x] == [x];
    } else {
      assert (xs + [x])[1..] == xs[1..] + [x];
      CountSnoc(p, xs[1..], x);
    }
  }

  // ---------------------------------------------------------------------------------------
  // Systems: a step relation with the invariant and the measure that go with it
  // ---------------------------------------------------------------------------------------

  /** spurious marks the steps that may happen any number of times to no effect. */
  datatype System<!S, !A> = System(init: S, step: (S, A, S) -> bool, inv: S -> bool, measure: S -> nat, spurious: A -> bool)

  ghost predicate IsRunOf<S(!new), A(!new)>(p: System<S, A>, r: Run<S, A>) { Follows(r, p.init, p.step) }

  /**
   * The invariant is inductive; every ordinary step lowers the measure, and a spurious one raises it
   * by at most one.
   */
  ghost predicate Sound<S(!new), A(!new)>(p: System<S, A>) {
    && p.inv(p.init)
    && (forall s, a, t :: p.inv(s) && p.step(s, a, t) ==> p.inv(t))
    && (forall s, a, t :: p.inv(s) && p.step(s, a, t) ==> p.measure(t) <= p.measure(s) + (if p.spurious(a) then 1 else -1))
  }

  lemma SystemInvariant<S(!new), A(!new)>(p: System<S, A>, r: Run<S, A>)
    requires Sound(p) && IsRunOf(p, r)
    ensures forall i :: 0 <= i < |r.states| ==> p.inv(r.states[i])
  {
    InvariantHolds(r, p.init, p.step, p.inv);
  }

  /** The length of every run is bounded by the initial measure and the number of spurious steps. */
  lemma {:induction false} SystemBounded<S(!new), A(!new)>(p: System<S, A>, r: Run<S, A>)
    requires Sound(p) && IsRunOf(p, r)
    ensures |r.actions| + p.measure(r.Last()) <= p.measure(p.init) + 2 * Count(p.spurious, r.actions)
    decreases |r.actions|
  {
    if r.actions != [] {
      var q := Shorter(r);
      SystemBounded(p, q);
      SystemInvariant(p, r);
      var n := |r.actions| - 1;
      assert q.Last() == r.states[n];
      assert p.inv(r.states[n]) && p.step(r.states[n], r.actions[n], r.states[n + 1]);
      CountSnoc(p.spurious, q.actions, r.actions[n]);
      assert r.actions == q.actions + [r.actions[n]];
    }
  }

  /** Nothing but a spurious step is possible. */
  ghost predicate Halted<S(!new), A(!new)>(p: System<S, A>, s: S) { forall a, t :: p.step(s, a, t) ==> p.spurious(a) }

  lemma HaltedStep<S(!new), A(!new)>(p: System<S, A>, s: S, a: A, t: S)
    requires Halted(p, s) && p.step(s, a, t)
    ensures p.spurious(a)
  {
  }

  /** Every run goes on, by ordinary steps, to a state where only spurious ones are left. */
  lemma {:induction false} RunOn<S(!new), A(!new)>(p: System<S, A>, r: Run<S, A>) returns (q: Run<S, A>)
    requires Sound(p) && IsRunOf(p, r)
    ensures IsRunOf(p, q) && Extends(q, r) && Halted(p, q.Last())
    decreases p.measure(r.Last())
  {
    if Halted(p, r.Last()) {
      q := r;
    } else {
      var a, t :| p.step(r.Last(), a, t) && !p.spurious(a);
      SystemInvariant(p, r);
      LongerFollows(r, p.init, p.step, a, t);
      assert p.inv(r.Last());
      q := RunOn(p, Longer(r, a, t));
    }
  }
}
