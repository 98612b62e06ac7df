/** Runs of a deterministic step function. */
module Iteration {

  function Iterate<S>(step: S -> S, s: S, n: nat): S
  {
    if n == 0 then s else Iterate(step, step(s), n - 1)
  }

  lemma {:induction false} IterateFixed<S>(step: S -> S, s: S, n: nat)
    requires step(s) == s
    ensures Iterate(step, s, n) == s
  {
    if n > 0 {
      IterateFixed(step, s, n - 1);
    }
  }

  lemma {:induction false} IterateOnce<S>(step: S -> S, s: S, n: nat)
    ensures Iterate(step, s, n + 1) == step(Iterate(step, s, n))
  {
    if n > 0 {
      IterateOnce(step, step(s), n - 1);
    }
  }

  /** One step from state s, of which at most i steps are left. */
  ghost predicate StepFalls<S>(step: S -> S, inv: (S, nat) -> bool, end: S -> bool, s: S, i: nat)
  {
    inv(s, i) ==> end(step(s)) || (i > 0 && inv(step(s), i - 1))
  }

  ghost predicate AlwaysFalls<S(!new)>(step: S -> S, inv: (S, nat) -> bool, end: S -> bool)
  {
    forall s, i :: StepFalls(step, inv, end, s, i)
  }

  /** inv(s, k): state s meets the invariant and at most k steps are left to the end.
      If every step keeps that, the end is reached in time and never left.  */
  lemma {:induction false} IterateEnds<S(!new)>(step: S -> S, inv: (S, nat) -> bool, end: S -> bool, s: S, k: nat, n: nat)
    requires inv(s, k) || end(s)
    requires AlwaysFalls(step, inv, end)
    requires forall x :: end(x) ==> step(x) == x
    ensures var r := Iterate(step, s, n);
            end(r) || (n <= k && inv(r, k - n))
  {
    if end(s) {
      IterateFixed(step, s, n);
    } else if n > 0 {
      assert StepFalls(step, inv, end, s, k);
      if end(step(s)) {
        IterateFixed(step, step(s), n - 1);
      } else {
        IterateEnds(step, inv, end, step(s), k - 1, n - 1);
      }
    }
  }

  /** Two runs that stay related as long as the first one meets a condition. */
  lemma {:induction false} IterateRelated<S(!new), T(!new)>(f: S -> S, g: T -> T, s: S, t: T, rel: (S, T) -> bool, ok: S -> bool, k: nat)
    requires rel(s, t)
    requires forall i: nat | i < k :: ok(Iterate(f, s, i))
    requires forall x, y | rel(x, y) && ok(x) :: rel(f(x), g(y))
    ensures rel(Iterate(f, s, k), Iterate(g, t, k))
  {
    if k > 0 {
      IterateRelated(f, g, s, t, rel, ok, k - 1);
      IterateOnce(f, s, k - 1);
      IterateOnce(g, t, k - 1);
    }
  }

  /** What steps under a condition inherit from their result holds all the way. */
  lemma {:induction false} IterateBack<S(!new)>(f: S -> S, s: S, prop: S -> bool, side: S -> bool, i: nat, k: nat)
    requires i <= k && prop(Iterate(f, s, k))
    requires forall n: nat | n < k :: side(Iterate(f, s, n))
    requires forall x | side(x) && prop(f(x)) :: prop(x)
    ensures prop(Iterate(f, s, i)) && (i < k ==> prop(f(Iterate(f, s, i))))
    decreases k - i
  {
    if i < k {
      IterateOnce(f, s, i);
      IterateBack(f, s, prop, side, i + 1, k);
    }
  }
}
