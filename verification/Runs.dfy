/** Runs of a state machine: folding actions over a state, and what every run keeps or reaches. */
module Runs {

  function Exec<S, A>(step: (S, A) -> S, s: S, actions: seq<A>): S
    decreases |actions|
  {
    if actions == [] then s else Exec(step, step(s, actions[0]), actions[1..])
  }

  ghost predicate Kept<S(!new), A(!new)>(step: (S, A) -> S, inv: S -> bool) {
    forall s, a :: inv(s) ==> inv(step(s, a))
  }

  /** What every step keeps, every run keeps. */
  lemma {:induction false} ExecKeeps<S(!new), A(!new)>(step: (S, A) -> S, inv: S -> bool, s: S, actions: seq<A>)
    requires Kept(step, inv) && inv(s)
    ensures inv(Exec(step, s, actions))
    decreases |actions|
  {
    if actions != [] {
      ExecKeeps(step, inv, step(s, actions[0]), actions[1..]);
    }
  }

  /** `t` has every property that `s` has and every step keeps. */
  ghost predicate Reaches<S(!new), A(!new)>(step: (S, A) -> S, s: S, t: S) {
    forall inv: S -> bool :: Kept(step, inv) && inv(s) ==> inv(t)
  }

  lemma Onward<S(!new), A(!new)>(step: (S, A) -> S, s: S, t: S, a: A)
    requires Reaches(step, s, t)
    ensures Reaches(step, s, step(t, a))
  {
  }

  lemma Further<S(!new), A(!new)>(step: (S, A) -> S, s: S, t: S, u: S)
    requires Reaches(step, s, t) && Reaches(step, t, u)
    ensures Reaches(step, s, u)
  {
  }

  lemma {:induction false} ExecSnoc<S, A>(step: (S, A) -> S, s: S, actions: seq<A>, a: A)
    ensures Exec(step, s, actions + [a]) == step(Exec(step, s, actions), a)
    decreases |actions|
  {
    if actions == [] {
      assert [] + [a] == [a] && [a][1..] == [];
    } else {
      assert (actions + [a])[1..] == actions[1..] + [a];
      ExecSnoc(step, step(s, actions[0]), actions[1..], a);
    }
  }

  lemma ARunReaches<S(!new), A(!new)>(step: (S, A) -> S, s: S, actions: seq<A>)
    ensures Reaches(step, s, Exec(step, s, actions))
  {
    forall inv: S -> bool | Kept(step, inv) && inv(s)
      ensures inv(Exec(step, s, actions))
    {
      ExecKeeps(step, inv, s, actions);
    }
  }

  ghost predicate SomeRunEnds<S, A(!new)>(step: (S, A) -> S, s: S, t: S) {
    exists actions :: Exec(step, s, actions) == t
  }

  /** To be reached is to be where some run ends. */
  lemma ReachedByARun<S(!new), A(!new)>(step: (S, A) -> S, s: S, t: S)
    ensures Reaches(step, s, t) <==> SomeRunEnds(step, s, t)
  {
    var inv := x => SomeRunEnds(step, s, x);
    assert Exec(step, s, []) == s;
    forall x, a | inv(x)
      ensures inv(step(x, a))
    {
      var actions :| Exec(step, s, actions) == x;
      ExecSnoc(step, s, actions, a);
    }
    assert Kept(step, inv) && inv(s);
    if SomeRunEnds(step, s, t) {
      var actions :| Exec(step, s, actions) == t;
      ARunReaches(step, s, actions);
    }
  }

  // ---- What happens along a run ----

  /** The state after the first `i` actions. */
  function Along<S, A>(step: (S, A) -> S, s: S, actions: seq<A>, i: nat): S
    requires i <= |actions|
  {
    Exec(step, s, actions[..i])
  }

  lemma AlongStep<S, A>(step: (S, A) -> S, s: S, actions: seq<A>, i: nat)
    requires i < |actions|
    ensures Along(step, s, actions, i + 1) == step(Along(step, s, actions, i), actions[i])
    ensures Along(step, s, actions, 0) == s && Along(step, s, actions, |actions|) == Exec(step, s, actions)
  {
    assert actions[..i + 1] == actions[..i] + [actions[i]];
    ExecSnoc(step, s, actions[..i], actions[i]);
    assert actions[..|actions|] == actions;
  }

  /** Some action of the run is taken in a state in which it is a `cause`. */
  ghost predicate Happens<S, A>(step: (S, A) -> S, s: S, actions: seq<A>, cause: (S, A) -> bool) {
    exists i: nat :: i < |actions| && cause(Along(step, s, actions, i), actions[i])
  }

  lemma {:induction false} AlongKeeps<S(!new), A(!new)>(step: (S, A) -> S, inv: S -> bool, s: S, actions: seq<A>, i: nat)
    requires Kept(step, inv) && inv(s) && i <= |actions|
    ensures inv(Along(step, s, actions, i))
  {
    ExecKeeps(step, inv, s, actions[..i]);
  }

  /** What only a cause brings about, and nothing takes back, holds at the end of a run exactly when
      it held at the start or a cause happened on the way. */
  lemma {:induction false} HoldsIffCaused<S(!new), A(!new)>(
    step: (S, A) -> S, inv: S -> bool, holds: S -> bool, cause: (S, A) -> bool, s: S, actions: seq<A>)
    requires Kept(step, inv) && inv(s)
    requires forall s, a :: inv(s) ==> (holds(step(s, a)) <==> holds(s) || cause(s, a))
    ensures holds(Exec(step, s, actions)) <==> holds(s) || Happens(step, s, actions, cause)
  {
    var n := 0;
    assert Along(step, s, actions, 0) == s;
    while n < |actions|
      invariant n <= |actions|
      invariant holds(Along(step, s, actions, n)) <==>
        holds(s) || exists i: nat :: i < n && cause(Along(step, s, actions, i), actions[i])
    {
      AlongKeeps(step, inv, s, actions, n);
      AlongStep(step, s, actions, n);
      n := n + 1;
    }
    assert actions[..|actions|] == actions;
  }

  /** What every action but a cause keeps, and every cause breaks, holds all along a run exactly when
      no cause happens on the way. */
  lemma {:induction false} AlwaysIffNoCause<S(!new), A(!new)>(
    step: (S, A) -> S, holds: S -> bool, cause: (S, A) -> bool, s: S, actions: seq<A>)
    requires holds(s)
    requires forall s, a :: holds(s) ==> (holds(step(s, a)) <==> !cause(s, a))
    ensures (forall n: nat :: n <= |actions| ==> holds(Along(step, s, actions, n)))
       <==> !Happens(step, s, actions, cause)
  {
    var n := 0;
    assert Along(step, s, actions, 0) == s;
    while n < |actions| && holds(Along(step, s, actions, n + 1))
      invariant n <= |actions|
      invariant forall i: nat :: i <= n ==> holds(Along(step, s, actions, i))
      invariant forall i: nat :: i < n ==> !cause(Along(step, s, actions, i), actions[i])
    {
      AlongStep(step, s, actions, n);
      n := n + 1;
    }
    if n < |actions| {
      AlongStep(step, s, actions, n);
      assert cause(Along(step, s, actions, n), actions[n]);
    }
  }
}
