/** Runs of a device that is known only by the relation between its states, the requests
    it gets and the answers it gives. */
module Runs {

  /** A request, its answer and the state it leaves. */
  datatype Event<S, Q, A> = Event(req: Q, reply: A, post: S)

  /** The state before event i; after the whole run for i == |run|. */
  function At<S, Q, A>(s0: S, run: seq<Event<S, Q, A>>, i: nat): S
    requires i <= |run|
  {
    if i == 0 then s0 else run[i - 1].post
  }

  predicate IsRun<S, Q, A>(step: (S, Q, S, A) -> bool, s0: S, run: seq<Event<S, Q, A>>) {
    forall i {:trigger run[i].req} :: 0 <= i < |run| ==> step(At(s0, run, i), run[i].req, run[i].post, run[i].reply)
  }

  /** Only allowed requests from event i up to event j. */
  predicate Only<S, Q, A>(allowed: Q -> bool, run: seq<Event<S, Q, A>>, i: nat, j: nat) {
    forall k {:trigger run[k].req} :: i <= k < j && k < |run| ==> allowed(run[k].req)
  }

  ghost predicate Kept<S(!new), Q(!new), A(!new)>(step: (S, Q, S, A) -> bool, inv: S -> bool, allowed: Q -> bool) {
    forall s, q, s', a :: inv(s) && allowed(q) && step(s, q, s', a) ==> inv(s')
  }

  /** What every allowed step keeps holds from event i to event j. */
  lemma {:induction false} KeptBetween<S(!new), Q(!new), A(!new)>(
      step: (S, Q, S, A) -> bool, inv: S -> bool, allowed: Q -> bool,
      s0: S, run: seq<Event<S, Q, A>>, i: nat, j: nat)
    requires IsRun(step, s0, run) && i <= j <= |run| && Only(allowed, run, i, j)
    requires Kept(step, inv, allowed) && inv(At(s0, run, i))
    ensures inv(At(s0, run, j))
    decreases j - i
  {
    if i < j {
      KeptBetween(step, inv, allowed, s0, run, i, j - 1);
      assert step(At(s0, run, j - 1), run[j - 1].req, run[j - 1].post, run[j - 1].reply);
    }
  }

  /** The same from just after an event. */
  lemma KeptAfter<S(!new), Q(!new), A(!new)>(
      step: (S, Q, S, A) -> bool, inv: S -> bool, allowed: Q -> bool,
      s0: S, run: seq<Event<S, Q, A>>, k: nat, j: nat)
    requires IsRun(step, s0, run) && k < j <= |run| && Only(allowed, run, k + 1, j)
    requires Kept(step, inv, allowed) && inv(run[k].post)
    ensures inv(At(s0, run, j))
  {
    KeptBetween(step, inv, allowed, s0, run, k + 1, j);
  }

  /** The weights of events i up to j, added up. */
  function Tally<S, Q, A>(weight: (Q, A) -> nat, run: seq<Event<S, Q, A>>, i: nat, j: nat): nat
    requires i <= j <= |run|
    decreases j
  {
    if i == j then 0 else Tally(weight, run, i, j - 1) + weight(run[j - 1].req, run[j - 1].reply)
  }

  lemma {:induction false} TallyGrows<S, Q, A>(weight: (Q, A) -> nat, run: seq<Event<S, Q, A>>, i: nat, k: nat, j: nat)
    requires i <= k <= j <= |run|
    ensures Tally(weight, run, i, k) <= Tally(weight, run, i, j)
    decreases j
  {
    if k < j {
      TallyGrows(weight, run, i, k, j - 1);
    }
  }

  ghost predicate KeptCounting<S(!new), Q(!new), A(!new)>(
      step: (S, Q, S, A) -> bool, inv: (S, nat) -> bool, allowed: Q -> bool, weight: (Q, A) -> nat)
  {
    forall s, q, s', a, n: nat :: inv(s, n) && allowed(q) && step(s, q, s', a) ==> inv(s', n + weight(q, a))
  }

  /** The same for a property of the state and a tally. */
  lemma {:induction false} KeptWithTally<S(!new), Q(!new), A(!new)>(
      step: (S, Q, S, A) -> bool, inv: (S, nat) -> bool, allowed: Q -> bool, weight: (Q, A) -> nat,
      s0: S, run: seq<Event<S, Q, A>>, i: nat, j: nat)
    requires IsRun(step, s0, run) && i <= j <= |run| && Only(allowed, run, i, j)
    requires KeptCounting(step, inv, allowed, weight) && inv(At(s0, run, i), 0)
    ensures inv(At(s0, run, j), Tally(weight, run, i, j))
    decreases j - i
  {
    if i < j {
      KeptWithTally(step, inv, allowed, weight, s0, run, i, j - 1);
      assert step(At(s0, run, j - 1), run[j - 1].req, run[j - 1].post, run[j - 1].reply);
    }
  }
}
