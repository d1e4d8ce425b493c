/**
 * The onboarding stepper: one circle per step, marked current, completed or pending, and a
 * connector between neighbouring circles that turns to success once the step before it is
 * done.
 */
module Stepper {
  datatype StepState = Current | Completed | Pending

  /** A step is current when it is the current one, completed when it comes before it, pending
      otherwise. */
  function StateOf(step: int, current: int): (s: StepState)
    ensures s == Current <==> step == current
    ensures s == Completed <==> step < current
    ensures s == Pending <==> step > current
  {
    if step == current then Current
    else if step < current then Completed
    else Pending
  }

  /** The circles for steps 1 to `total`, in order (none when `total` is below 1). */
  function Circles(current: int, total: int): (r: seq<StepState>)
    ensures |r| == if total < 0 then 0 else total
    ensures forall i :: 0 <= i < |r| ==> r[i] == StateOf(i + 1, current)
  {
    if total <= 0 then [] else Circles(current, total - 1) + [StateOf(total, current)]
  }

  /** The connectors after every step but the last: true when drawn in the success colour. */
  function Connectors(current: int, total: int): (r: seq<bool>)
    ensures |r| == if total < 1 then 0 else total - 1
    ensures forall i :: 0 <= i < |r| ==> (r[i] <==> i + 1 < current)
  {
    if total <= 1 then [] else Connectors(current, total - 1) + [total - 1 < current]
  }

  /** How many circles are in state `s`. */
  function CountState(r: seq<StepState>, s: StepState): (n: nat)
    ensures n <= |r|
  {
    if r == [] then 0 else CountState(r[..|r| - 1], s) + (if r[|r| - 1] == s then 1 else 0)
  }

  /** While the current step is one of the steps, exactly one circle is current, the ones before
      it are completed and the rest pending. */
  lemma CirclesCount(current: int, total: int)
    requires 1 <= current <= total
    ensures var r := Circles(current, total);
      CountState(r, Current) == 1 && CountState(r, Completed) == current - 1
      && CountState(r, Pending) == total - current
  {
    var a, b := Repeat(Completed, current - 1), Repeat(Pending, total - current);
    CirclesShape(current, total);
    assert [Current][..0] == [];
    CountsOfShape(a, b, Current);
    CountsOfShape(a, b, Completed);
    CountsOfShape(a, b, Pending);
  }

  /** How often `s` occurs in the shape of the circles. */
  lemma CountsOfShape(a: seq<StepState>, b: seq<StepState>, s: StepState)
    requires a == Repeat(Completed, |a|) && b == Repeat(Pending, |b|)
    ensures CountState(a + [Current] + b, s) ==
      (if s == Completed then |a| else 0) + (if s == Current then 1 else 0) + (if s == Pending then |b| else 0)
  {
    CountAppend(a + [Current], b, s);
    CountAppend(a, [Current], s);
    assert [Current][..0] == [];
    CountRepeat(Completed, |a|, s);
    CountRepeat(Pending, |b|, s);
  }

  /** `n` copies of `x`. */
  function Repeat(x: StepState, n: nat): (r: seq<StepState>)
    ensures |r| == n && forall i :: 0 <= i < n ==> r[i] == x
  {
    seq(n, _ => x)
  }

  /** The circles are the completed steps, the current one, then the pending steps. */
  lemma CirclesShape(current: int, total: int)
    requires 1 <= current <= total
    ensures Circles(current, total) == Repeat(Completed, current - 1) + [Current] + Repeat(Pending, total - current)
  {
  }

  /** Counting distributes over concatenation. */
  lemma {:induction false} CountAppend(a: seq<StepState>, b: seq<StepState>, s: StepState)
    ensures CountState(a + b, s) == CountState(a, s) + CountState(b, s)
    decreases |b|
  {
    if b != [] {
      assert (a + b)[..|a + b| - 1] == a + b[..|b| - 1];
      CountAppend(a, b[..|b| - 1], s);
    } else {
      assert a + b == a;
    }
  }

  /** `n` copies of `x` count `n` times in state `x` and never in another state. */
  lemma {:induction false} CountRepeat(x: StepState, n: nat, s: StepState)
    ensures CountState(Repeat(x, n), s) == if s == x then n else 0
  {
    if n > 0 {
      assert Repeat(x, n)[..n - 1] == Repeat(x, n - 1);
      CountRepeat(x, n - 1, s);
    }
  }

  /** A connector is in the success colour exactly when the circle before it is completed. */
  lemma ConnectorFollowsCircle(current: int, total: int, i: int)
    requires 0 <= i < total - 1
    ensures Connectors(current, total)[i] <==> Circles(current, total)[i] == Completed
  {
  }
}
