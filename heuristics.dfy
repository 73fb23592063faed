/** The per-frame signals of src/vdt_scoring/scoring/heuristics.py. The
    image library's outputs (mean Sobel magnitude, Laplacian variance,
    grayscale pixels) are the inputs; only the post-processing is modelled. */
module Heuristics {
  import opened Wrappers
  import opened Numerics

  /** `edge_energy`: the mean gradient magnitude over 255, clipped to [0, 1]. */
  function EdgeEnergy(meanMagnitude: real): (e: real)
    ensures 0.0 <= e <= 1.0
  {
    Clip01(meanMagnitude / 255.0)
  }

  lemma EdgeEnergyMonotone(m1: real, m2: real)
    requires m1 <= m2
    ensures EdgeEnergy(m1) <= EdgeEnergy(m2)
  {
    ClipMonotone(m1 / 255.0, m2 / 255.0, 0.0, 1.0);
  }

  /** `blur_score`: 1 − variance/1000 clipped to [0, 1], so a flat (blurry)
      frame scores 1 and a variance of 1000 or more scores 0. */
  function BlurScore(laplacianVariance: real): (b: real)
    ensures 0.0 <= b <= 1.0
    ensures laplacianVariance <= 0.0 ==> b == 1.0
    ensures laplacianVariance >= 1000.0 ==> b == 0.0
  {
    Clip01(1.0 - laplacianVariance / 1000.0)
  }

  lemma BlurScoreAntitone(v1: real, v2: real)
    requires v1 <= v2
    ensures BlurScore(v2) <= BlurScore(v1)
  {
    ClipMonotone(1.0 - v2 / 1000.0, 1.0 - v1 / 1000.0, 0.0, 1.0);
  }

  /** Sum of |p[i] − c[i]|: `absdiff` followed by the numerator of `mean`. */
  function AbsDiffSum(p: seq<int>, c: seq<int>): (d: int)
    requires |p| == |c|
    ensures d >= 0
  {
    if p == [] then 0
    else (if p[0] < c[0] then c[0] - p[0] else p[0] - c[0]) + AbsDiffSum(p[1..], c[1..])
  }

  lemma {:induction false} AbsDiffSumSelf(p: seq<int>)
    ensures AbsDiffSum(p, p) == 0
  {
    if p != [] {
      AbsDiffSumSelf(p[1..]);
    }
  }

  /** `motion_inconsistency(prev, frame)` on grayscale pixel lists: 0 with no
      previous frame, otherwise the mean absolute difference over 255,
      clipped to [0, 1]. Frames of one video share their size. */
  function MotionInconsistency(prev: Option<seq<int>>, cur: seq<int>): (m: real)
    requires prev.Some? ==> |prev.value| == |cur| > 0
    ensures 0.0 <= m <= 1.0
    ensures prev.None? ==> m == 0.0
  {
    if prev.None? then 0.0
    else Clip01((AbsDiffSum(prev.value, cur) as real / |cur| as real) / 255.0)
  }

  /** Two identical frames show no motion. */
  lemma MotionOfIdenticalFrames(f: seq<int>)
    requires |f| > 0
    ensures MotionInconsistency(Some(f), f) == 0.0
  {
    AbsDiffSumSelf(f);
  }
}
