/**
 * Motion predicates over one accelerometer reading (src/sensor/accelerometer.py).
 *
 * Readings are in m/s^2 and modelled as exact reals; the I2C read and the
 * square root in `magnitude` are outside the model, so the magnitude is an
 * input of `ShakeStrength`.
 */
module Accelerometer {

  /** One `(x, y, z)` acceleration sample as returned by `get_raw`. */
  datatype Reading = Reading(x: real, y: real, z: real)

  /** Standard gravity, subtracted from the z axis and from the magnitude. */
  const Gravity: real := 9.81

  /** Default threshold `th=3.0` of the three motion predicates. */
  const DefaultThreshold: real := 3.0

  /** The three moves of `AccelMoves`. */
  datatype Move = LeftRight | FwdBack | UpDown

  function Abs(v: real): (r: real)
    ensures 0.0 <= r
    ensures r == v || r == -v
  {
    if v < 0.0 then -v else v
  }

  /** `left_right`: the x axis swings strictly past the threshold, either way. */
  predicate LeftRightShake(a: Reading, th: real)
    ensures LeftRightShake(a, th) <==> a.x > th || a.x < -th
  {
    Abs(a.x) > th
  }

  /** `fwd_back`: the y axis swings strictly past the threshold, either way. */
  predicate FwdBackShake(a: Reading, th: real)
    ensures FwdBackShake(a, th) <==> a.y > th || a.y < -th
  {
    Abs(a.y) > th
  }

  /** `up_down`: the z axis leaves the band of half-width `th` around gravity. */
  predicate UpDownShake(a: Reading, th: real)
    ensures UpDownShake(a, th) <==> a.z > Gravity + th || a.z < Gravity - th
  {
    Abs(a.z - Gravity) > th
  }

  /** The axis value a move is judged on: x, y, or z relative to gravity. */
  function Deviation(m: Move, a: Reading): real {
    match m
    case LeftRight => a.x
    case FwdBack => a.y
    case UpDown => a.z - Gravity
  }

  /** The predicate the game binds to a move: its own axis deviates strictly past the threshold. */
  predicate Detect(m: Move, a: Reading, th: real)
    ensures Detect(m, a, th) <==> Deviation(m, a) > th || Deviation(m, a) < -th
  {
    match m
    case LeftRight => LeftRightShake(a, th)
    case FwdBack => FwdBackShake(a, th)
    case UpDown => UpDownShake(a, th)
  }

  /**
   * `shake_strength`: the magnitude above gravity, clamped at zero.
   */
  function ShakeStrength(magnitude: real): (r: real)
    ensures 0.0 <= r
    ensures magnitude <= Gravity ==> r == 0.0
    ensures magnitude > Gravity ==> r == magnitude - Gravity
  {
    if magnitude - Gravity < 0.0 then 0.0 else magnitude - Gravity
  }

  /** A larger magnitude never gives a smaller shake strength. */
  lemma ShakeStrengthMonotone(m1: real, m2: real)
    requires m1 <= m2
    ensures ShakeStrength(m1) <= ShakeStrength(m2)
  {
  }

  /** Each predicate reads only its own axis: the other two components do not matter. */
  lemma DetectReadsOneAxis(m: Move, a: Reading, b: Reading, th: real)
    requires m == LeftRight ==> a.x == b.x
    requires m == FwdBack ==> a.y == b.y
    requires m == UpDown ==> a.z == b.z
    ensures Detect(m, a, th) == Detect(m, b, th)
  {
  }

  /** Raising the threshold can only turn a detection off, never on. */
  lemma DetectAntitone(m: Move, a: Reading, th1: real, th2: real)
    requires th1 <= th2
    ensures Detect(m, a, th2) ==> Detect(m, a, th1)
    ensures !Detect(m, a, th1) ==> !Detect(m, a, th2)
  {
  }

  /** The comparison is strict: a swing exactly at the threshold is not a move. */
  lemma DetectStrictAtThreshold(m: Move, a: Reading, th: real)
    requires m == LeftRight ==> Abs(a.x) == th
    requires m == FwdBack ==> Abs(a.y) == th
    requires m == UpDown ==> Abs(a.z - Gravity) == th
    ensures !Detect(m, a, th)
  {
  }

  /** Left-right and forward-back do not care about the sign of their axis. */
  lemma HorizontalMovesSignSymmetric(a: Reading, th: real)
    ensures LeftRightShake(Reading(-a.x, a.y, a.z), th) == LeftRightShake(a, th)
    ensures FwdBackShake(Reading(a.x, -a.y, a.z), th) == FwdBackShake(a, th)
  {
  }
}
