/** The calibrator of src/vdt_scoring/scoring/calibration.py. */
module Calibration {

  /** `calibrate(score)`: `max(0.0, min(1.0, score))`. */
  function Calibrate(x: real): (r: real)
    ensures 0.0 <= r <= 1.0
    ensures 0.0 <= x <= 1.0 ==> r == x
    ensures x <= 0.0 ==> r == 0.0
    ensures x >= 1.0 ==> r == 1.0
  {
    if 1.0 < x then 1.0 else if x < 0.0 then 0.0 else x
  }

  lemma CalibrateIdempotent(x: real)
    ensures Calibrate(Calibrate(x)) == Calibrate(x)
  {
  }

  lemma CalibrateMonotone(x: real, y: real)
    requires x <= y
    ensures Calibrate(x) <= Calibrate(y)
  {
  }

  lemma CalibrateExamples()
    ensures Calibrate(-5.0) == 0.0 && Calibrate(5.0) == 1.0 && Calibrate(0.42) == 0.42
  {
  }
}
