/** Runs of a step function, and the one induction over them. */
module Runs {

  /** The state after the first `n` steps. */
  function Run<W, O>(step: (W, O) -> W, w: W, ops: seq<O>, n: nat): W
    requires n <= |ops|
  {
    if n == 0 then w else step(Run(step, w, ops, n - 1), ops[n - 1])
  }

  /** What every allowed step keeps, every stretch of allowed steps keeps. */
  lemma {:induction false} KeptAlong<W(!new), O(!new)>(
    step: (W, O) -> W, w: W, ops: seq<O>, m: nat, n: nat, allowed: O -> bool, kept: W -> bool)
    requires m <= n <= |ops| && kept(Run(step, w, ops, m))
    requires forall k :: m <= k < n ==> allowed(ops[k])
    requires forall v, o :: kept(v) && allowed(o) ==> kept(step(v, o))
    ensures kept(Run(step, w, ops, n))
    decreases n
  {
    if m < n {
      KeptAlong(step, w, ops, m, n - 1, allowed, kept);
    }
  }

  /** The operations from `m` to `n` all pass. */
  predicate Only<O>(ops: seq<O>, m: nat, n: nat, p: O -> bool)
    requires m <= n <= |ops|
    decreases n
  {
    m < n ==> Only(ops, m, n - 1, p) && p(ops[n - 1])
  }

  /** Steps that are idle in a resting state leave it, however many. */
  lemma {:induction false} StaysPut<W(!new), O(!new)>(
    step: (W, O) -> W, w: W, ops: seq<O>, m: nat, n: nat, rests: W -> bool, idle: O -> bool)
    requires m <= n <= |ops| && rests(Run(step, w, ops, m)) && Only(ops, m, n, idle)
    requires forall v, o :: rests(v) && idle(o) ==> step(v, o) == v
    ensures Run(step, w, ops, n) == Run(step, w, ops, m)
    decreases n
  {
    if m < n {
      StaysPut(step, w, ops, m, n - 1, rests, idle);
    }
  }

  /**
   * A step that takes something holds it until a set time, every step keeps the hold, and a hold blocks
   * takers before then.
   */
  lemma {:induction false} TakesAreSpaced<W(!new), O(!new)>(
    step: (W, O) -> W, w: W, ops: seq<O>, a: nat, b: nat,
    takes: (W, O) -> bool, held: (W, int) -> bool, clock: O -> int, until: O -> int)
    requires a < b < |ops| && takes(Run(step, w, ops, a), ops[a]) && takes(Run(step, w, ops, b), ops[b])
    requires forall v, o :: takes(v, o) ==> held(step(v, o), until(o))
    requires forall v, o, t :: held(v, t) ==> held(step(v, o), t)
    requires forall v, o, t :: held(v, t) && takes(v, o) ==> clock(o) >= t
    ensures clock(ops[b]) >= until(ops[a])
  {
    var t := until(ops[a]);
    forall v, o | held(v, t) ensures held(step(v, o), t) {
    }
    KeptAlong(step, w, ops, a + 1, b, o => true, v => held(v, t));
  }

  /** What puts an end to itself happens once. */
  lemma {:induction false} HappensOnce<W(!new), O(!new)>(
    step: (W, O) -> W, w: W, ops: seq<O>, a: nat, b: nat, happens: (W, O) -> bool, over: W -> bool)
    requires a < b < |ops| && happens(Run(step, w, ops, a), ops[a])
    requires forall v, o :: happens(v, o) ==> over(step(v, o))
    requires forall v, o :: over(v) ==> over(step(v, o)) && !happens(v, o)
    ensures !happens(Run(step, w, ops, b), ops[b])
  {
    KeptAlong(step, w, ops, a + 1, b, o => true, over);
  }

  /** What holds after a run and not before it was given by some step, if only those steps can give it. */
  lemma {:induction false} GivenOnTheWay<W(!new), O(!new)>(
    step: (W, O) -> W, w: W, ops: seq<O>, n: nat, holds: W -> bool, gives: (W, O) -> bool) returns (k: nat)
    requires n <= |ops| && !holds(w) && holds(Run(step, w, ops, n))
    requires forall v, o :: holds(step(v, o)) && !holds(v) ==> gives(v, o)
    ensures k < n && gives(Run(step, w, ops, k), ops[k])
    decreases n
  {
    k := n - 1;
    if holds(Run(step, w, ops, n - 1)) {
      k := GivenOnTheWay(step, w, ops, n - 1, holds, gives);
    }
  }
}
