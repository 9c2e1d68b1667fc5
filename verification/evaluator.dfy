/**
 * The level evaluator `Game._perform_motion` (game/logic.py).
 *
 * The loop polls the move's predicate once per 0.1 s tick, adds one tick of
 * motion to an accumulator whenever the predicate holds, and passes as soon
 * as the accumulator reaches the required time; it fails once the time
 * limit has run out.
 *
 * Time is abstracted into ticks. `samples[t]` is what the predicate returned
 * at the t-th iteration, and `window` is the number of iterations the clock
 * admits before `time.monotonic() - start < TIME_LIMIT` turns false (at
 * most 50 for 5.0 s with an exact clock, since every iteration sleeps
 * 0.1 s). `need` is the
 * required time in ticks (deciseconds).
 *
 * The source accumulates `acc_time += 0.1` in binary floating point, which
 * is inexact: the running sum can fall just short of a whole `need_time`,
 * so the source can need one motion tick more than `need`, at any
 * difficulty, depending on the float width of the platform it runs on.
 * The model counts exact ticks and does not reproduce that rounding.
 */
module Evaluator {

  /** Outcome of one level attempt; `ticks` is how many samples were consumed before passing. */
  datatype Attempt = Passed(ticks: nat) | Failed

  /** Ticks with motion among the given samples: the accumulator after consuming them. */
  function CountTrue(s: seq<bool>): (n: nat)
    ensures n <= |s|
    ensures n == |s| <==> forall i :: 0 <= i < |s| ==> s[i]
    ensures n == 0 <==> forall i :: 0 <= i < |s| ==> !s[i]
  {
    if |s| == 0 then 0 else CountTrue(s[..|s| - 1]) + (if s[|s| - 1] then 1 else 0)
  }

  /** After consuming `k` samples (at least one), the accumulator has reached `need`. */
  predicate ReachedAt(samples: seq<bool>, need: int, k: nat) {
    1 <= k <= |samples| && need <= CountTrue(samples[..k])
  }

  /** `k` is the first iteration at whose end the accumulator has reached `need`. */
  predicate FirstReach(samples: seq<bool>, need: int, k: nat) {
    ReachedAt(samples, need, k) && forall j :: 1 <= j < k ==> !ReachedAt(samples, need, j)
  }

  /**
   * One iteration moves the accumulator by exactly one tick when the move
   * was detected and leaves it unchanged otherwise.
   */
  lemma AccumulatorStep(s: seq<bool>, i: nat)
    requires i < |s|
    ensures s[i] ==> CountTrue(s[..i + 1]) == CountTrue(s[..i]) + 1
    ensures !s[i] ==> CountTrue(s[..i + 1]) == CountTrue(s[..i])
  {
    assert s[..i + 1][..i] == s[..i];
  }

  /** The accumulator never decreases during an attempt. */
  lemma {:induction false} AccumulatorMonotone(s: seq<bool>, i: nat, j: nat)
    requires i <= j <= |s|
    ensures CountTrue(s[..i]) <= CountTrue(s[..j])
    decreases j - i
  {
    if i < j {
      AccumulatorStep(s, j - 1);
      AccumulatorMonotone(s, i, j - 1);
    }
  }

  /**
   * The loop from iteration `t` on, with accumulator `acc`: consume one
   * sample, add to the accumulator, test it against `need`.
   */
  function Scan(samples: seq<bool>, window: nat, need: int, t: nat, acc: nat): (r: Attempt)
    requires t <= window <= |samples|
    requires acc == CountTrue(samples[..t])
    requires forall j :: 1 <= j <= t ==> !ReachedAt(samples, need, j)
    ensures r.Passed? ==> t < r.ticks <= window && FirstReach(samples, need, r.ticks)
    ensures r.Failed? ==> forall j :: 1 <= j <= window ==> !ReachedAt(samples, need, j)
    decreases window - t
  {
    if t == window then Failed
    else
      var acc' := acc + (if samples[t] then 1 else 0);
      AccumulatorStep(samples, t);
      if acc' >= need then Passed(t + 1) else Scan(samples, window, need, t + 1, acc')
  }

  /**
   * `_perform_motion`: pass exactly when the motion within the window
   * reaches `need` (and the window admits at least one iteration, because
   * the test follows the first tick even when `need <= 0`), at the first
   * iteration where it does; consume nothing after that.
   */
  function Evaluate(samples: seq<bool>, window: nat, need: int): (r: Attempt)
    requires window <= |samples|
    ensures r.Passed? <==> 1 <= window && need <= CountTrue(samples[..window])
    ensures r.Passed? ==> r.ticks <= window && FirstReach(samples, need, r.ticks)
  {
    assert samples[..0] == [];
    var r := Scan(samples, window, need, 0, 0);
    if r.Passed? then
      AccumulatorMonotone(samples, r.ticks, window);
      r
    else
      assert 1 <= window ==> !ReachedAt(samples, need, window);
      r
  }

  /**
   * The polling loop as the source writes it. The accumulator `acc` and the
   * iteration count `t` are the loop's state; the method returns the
   * verdict and the number of samples it consumed.
   */
  method PerformMotion(samples: seq<bool>, window: nat, need: int) returns (passed: bool, consumed: nat)
    requires window <= |samples|
    ensures passed <==> 1 <= window && need <= CountTrue(samples[..window])
    ensures passed ==> consumed <= window && FirstReach(samples, need, consumed)
    ensures !passed ==> consumed == window
    ensures Evaluate(samples, window, need) == if passed then Passed(consumed) else Failed
  {
    var acc: nat := 0;
    var t: nat := 0;
    assert samples[..0] == [];
    while t < window
      invariant t <= window
      invariant acc == CountTrue(samples[..t])
      invariant forall j :: 1 <= j <= t ==> !ReachedAt(samples, need, j)
      invariant Scan(samples, window, need, t, acc) == Evaluate(samples, window, need)
    {
      AccumulatorStep(samples, t);
      if samples[t] {
        acc := acc + 1;
      }
      t := t + 1;
      if acc >= need {
        AccumulatorMonotone(samples, t, window);
        return true, t;
      }
    }
    return false, window;
  }

  /** A window that admits no iteration fails, even when nothing is required. */
  lemma EmptyWindowFails(samples: seq<bool>, need: int)
    ensures Evaluate(samples, 0, need) == Failed
  {
  }

  /** Motion on every tick passes a requirement that fits the window exactly at tick `need`. */
  lemma {:induction false} ContinuousMotionPassesAtNeed(samples: seq<bool>, window: nat, need: nat)
    requires window <= |samples|
    requires 1 <= need <= window
    requires forall i :: 0 <= i < window ==> samples[i]
    ensures Evaluate(samples, window, need) == Passed(need)
  {
    assert forall i :: 0 <= i < need ==> samples[..need][i];
    AccumulatorMonotone(samples, need, window);
    var r := Evaluate(samples, window, need);
    assert forall i :: 0 <= i < r.ticks ==> samples[..r.ticks][i];
    assert ReachedAt(samples, need, need);
  }

  /**
   * Only the number of motion ticks in the window matters, not where they
   * fall: for a requirement of `need` ticks, exactly `need` of them pass
   * and `need - 1` fail.
   */
  lemma PassDependsOnlyOnMotionTotal(samples: seq<bool>, window: nat, need: int)
    requires 1 <= window <= |samples|
    ensures CountTrue(samples[..window]) == need ==> Evaluate(samples, window, need).Passed?
    ensures CountTrue(samples[..window]) == need - 1 ==> Evaluate(samples, window, need) == Failed
  {
  }
}
