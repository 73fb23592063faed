/** The orchestrator and aggregator of src/vdt_scoring/pipeline/infer.py. */
module Infer {
  import opened Wrappers
  import opened Numerics
  import opened Strings
  import Paths
  import opened Config
  import opened VideoIo
  import VideoIoProperties
  import opened Heuristics
  import opened Calibration
  import opened Explain

  datatype FrameResult = FrameResult(index: int, score: real, explanations: seq<string>, heatmapPath: Option<string>)

  /** `flagged_segments` is reserved for (start, end) ranges and always empty. */
  datatype Summary = Summary(globalScore: real, framesEvaluated: nat, flaggedSegments: seq<(int, int)>)

  datatype VideoResult = VideoResult(videoPath: string, summary: Summary, frames: seq<FrameResult>)

  /** The frames of one video share a non-empty size, so the pixel-wise
      difference of any two of them is defined. */
  predicate UniformFrames(frames: seq<Frame>)
  {
    forall i, j :: 0 <= i < |frames| && 0 <= j < |frames| ==> |frames[i].gray| == |frames[j].gray| > 0
  }

  /** The weighted combination of the three signals; edge energy enters
      inverted, so less detail means more risk. */
  function RawScore(w: ScoringCfg, e: real, m: real, b: real): real
  {
    w.wEdge * (1.0 - e) + w.wMotion * m + w.wBlur * b
  }

  lemma RawScoreEdgeAntitone(w: ScoringCfg, e1: real, e2: real, m: real, b: real)
    requires w.wEdge >= 0.0 && e1 <= e2
    ensures RawScore(w, e2, m, b) <= RawScore(w, e1, m, b)
  {
    assert w.wEdge * (1.0 - e2) <= w.wEdge * (1.0 - e1) by {
      assert w.wEdge * (1.0 - e1) - w.wEdge * (1.0 - e2) == w.wEdge * (e2 - e1);
    }
  }

  /** `(idx // every_nth) % save_every_n == 0` */
  predicate HeatmapDue(idx: int, everyNth: int, saveEveryN: int)
    requires everyNth != 0 && saveEveryN != 0
  {
    PyMod(FloorDiv(idx, everyNth), saveEveryN) == 0
  }

  /** `save_edge_heatmap`'s file: `<out_dir>/heatmaps/frame_<6-digit idx>.png`. */
  function HeatmapPath(outDir: string, idx: nat): string
  {
    Paths.Join(Paths.Join(outDir, "heatmaps"), "frame_" + ZeroPad(idx, 6) + ".png")
  }

  /** The record the loop body builds for frame `frame` at index `idx`, given
      the previously sampled frame. */
  function FrameRecord(cfg: AppCfg, outDir: string, idx: nat, frame: Frame, prev: Option<Frame>): FrameResult
    requires cfg.sampler.everyNth != 0
    requires cfg.output.saveHeatmaps ==> cfg.output.saveEveryN != 0
    requires prev.Some? ==> |prev.value.gray| == |frame.gray| > 0
  {
    var e := EdgeEnergy(frame.sobelMeanMagnitude);
    var b := BlurScore(frame.laplacianVariance);
    var m := MotionInconsistency(if prev.None? then None else Some(prev.value.gray), frame.gray);
    var heat := if cfg.output.saveHeatmaps && HeatmapDue(idx, cfg.sampler.everyNth, cfg.output.saveEveryN)
      then Some(HeatmapPath(outDir, idx)) else None;
    FrameResult(idx, Calibrate(RawScore(cfg.scoring, e, m, b)), TextualReasons(e, m, b), heat)
  }

  predicate ValidPairs(pairs: seq<(int, Frame)>)
  {
    && (forall k :: 0 <= k < |pairs| ==> pairs[k].0 >= 0)
    && UniformFrames(seq(|pairs|, k requires 0 <= k < |pairs| => pairs[k].1))
  }

  lemma PairsUniform(pairs: seq<(int, Frame)>, i: nat, j: nat)
    requires ValidPairs(pairs) && i < |pairs| && j < |pairs|
    ensures |pairs[i].1.gray| == |pairs[j].1.gray| > 0
  {
    var frames := seq(|pairs|, k requires 0 <= k < |pairs| => pairs[k].1);
    assert frames[i] == pairs[i].1 && frames[j] == pairs[j].1;
  }

  /** The k-th record: its motion signal uses the (k−1)-th sampled frame. */
  function RecordAt(cfg: AppCfg, outDir: string, pairs: seq<(int, Frame)>, k: nat): FrameResult
    requires cfg.sampler.everyNth != 0
    requires cfg.output.saveHeatmaps ==> cfg.output.saveEveryN != 0
    requires ValidPairs(pairs) && k < |pairs|
  {
    var frames := seq(|pairs|, k requires 0 <= k < |pairs| => pairs[k].1);
    assert frames[k] == pairs[k].1;
    assert k > 0 ==> frames[k - 1] == pairs[k - 1].1;
    FrameRecord(cfg, outDir, pairs[k].0, pairs[k].1, if k == 0 then None else Some(pairs[k - 1].1))
  }

  /** The per-frame records, in sampler order. */
  function Records(cfg: AppCfg, outDir: string, pairs: seq<(int, Frame)>): (r: seq<FrameResult>)
    requires cfg.sampler.everyNth != 0
    requires cfg.output.saveHeatmaps ==> cfg.output.saveEveryN != 0
    requires ValidPairs(pairs)
    ensures |r| == |pairs|
  {
    seq(|pairs|, k requires 0 <= k < |pairs| => RecordAt(cfg, outDir, pairs, k))
  }

  /** `np.clip(np.mean(scores), 0, 1)`, or 0.0 for no scores. */
  function GlobalScore(scores: seq<real>): (g: real)
    ensures 0.0 <= g <= 1.0
    ensures scores == [] ==> g == 0.0
  {
    if scores == [] then 0.0 else Clip01(Mean(scores))
  }

  function Scores(frames: seq<FrameResult>): (s: seq<real>)
    ensures |s| == |frames| && forall k :: 0 <= k < |frames| ==> s[k] == frames[k].score
  {
    seq(|frames|, k requires 0 <= k < |frames| => frames[k].score)
  }

  function Aggregate(path: string, frames: seq<FrameResult>): (r: VideoResult)
    ensures r.frames == frames && r.summary.framesEvaluated == |frames| && r.summary.flaggedSegments == []
    ensures 0.0 <= r.summary.globalScore <= 1.0
  {
    VideoResult(path, Summary(GlobalScore(Scores(frames)), |frames|, []), frames)
  }

  /** What `infer_video` returns or raises, as a function of the video. */
  function InferSpec(path: string, source: VideoSource, outDir: string, cfg: AppCfg): Result<VideoResult>
    requires UniformFrames(source.frames)
  {
    var sampled := ReadFramesSpec(source, cfg.sampler.everyNth, cfg.sampler.maxFrames);
    if sampled.Err? then Err(sampled.error)
    else
      SampledPairsValid(source, cfg.sampler.everyNth, cfg.sampler.maxFrames);
      var scored := ScoredFrames(cfg, outDir, sampled.value);
      if scored.Err? then Err(scored.error) else Ok(Aggregate(path, scored.value))
  }

  lemma SampledPairsValid(source: VideoSource, everyNth: int, maxFrames: int)
    requires UniformFrames(source.frames)
    requires ReadFramesSpec(source, everyNth, maxFrames).Ok?
    ensures var pairs := ReadFramesSpec(source, everyNth, maxFrames).value;
      ValidPairs(pairs) && (pairs != [] ==> everyNth != 0)
  {
    var pairs := ReadFramesSpec(source, everyNth, maxFrames).value;
    VideoIoProperties.ReadFramesShape(source, everyNth, maxFrames);
    var frames := seq(|pairs|, k requires 0 <= k < |pairs| => pairs[k].1);
    forall i, j | 0 <= i < |frames| && 0 <= j < |frames|
      ensures |frames[i].gray| == |frames[j].gray| > 0
    {
      assert frames[i] == source.frames[pairs[i].0] && frames[j] == source.frames[pairs[j].0];
    }
  }

  /** What the loop of `infer_video` produces from the sampled pairs: the
      records, or the ZeroDivisionError of a zero `save_every_n`. */
  function ScoredFrames(cfg: AppCfg, outDir: string, pairs: seq<(int, Frame)>): Result<seq<FrameResult>>
    requires pairs != [] ==> cfg.sampler.everyNth != 0
    requires ValidPairs(pairs)
  {
    if pairs == [] then Ok([])
    else if cfg.output.saveHeatmaps && cfg.output.saveEveryN == 0 then Err(ZeroDivision)
    else Ok(Records(cfg, outDir, pairs))
  }

  /** The loop of `infer_video`: score each sampled frame against the one
      sampled before it. */
  method ScoreFrames(cfg: AppCfg, outDir: string, pairs: seq<(int, Frame)>) returns (r: Result<seq<FrameResult>>)
    requires pairs != [] ==> cfg.sampler.everyNth != 0
    requires ValidPairs(pairs)
    ensures r == ScoredFrames(cfg, outDir, pairs)
  {
    var frames: seq<FrameResult> := [];
    var prev: Option<Frame> := None;
    for k := 0 to |pairs|
      invariant |frames| == k
      invariant k > 0 ==> !(cfg.output.saveHeatmaps && cfg.output.saveEveryN == 0)
      invariant forall j :: 0 <= j < k ==> frames[j] == RecordAt(cfg, outDir, pairs, j)
      invariant prev == if k == 0 then None else Some(pairs[k - 1].1)
    {
      var (idx, frame) := pairs[k];
      var e := EdgeEnergy(frame.sobelMeanMagnitude);
      var b := BlurScore(frame.laplacianVariance);
      if k > 0 {
        PairsUniform(pairs, k - 1, k);
      }
      var m := MotionInconsistency(if prev.None? then None else Some(prev.value.gray), frame.gray);
      var score := Calibrate(RawScore(cfg.scoring, e, m, b));
      var heatPath: Option<string> := None;
      if cfg.output.saveHeatmaps {
        if cfg.output.saveEveryN == 0 {
          return Err(ZeroDivision);
        }
        if HeatmapDue(idx, cfg.sampler.everyNth, cfg.output.saveEveryN) {
          heatPath := Some(HeatmapPath(outDir, idx));
        }
      }
      assert FrameResult(idx, score, TextualReasons(e, m, b), heatPath) == RecordAt(cfg, outDir, pairs, k);
      frames := frames + [FrameResult(idx, score, TextualReasons(e, m, b), heatPath)];
      prev := Some(frame);
    }
    if pairs != [] {
      assert frames == Records(cfg, outDir, pairs);
    }
    r := Ok(frames);
  }

  /** `infer_video(path, out_dir, cfg)`: sample, score, aggregate. */
  method InferVideo(path: string, source: VideoSource, outDir: string, cfg: AppCfg)
    returns (r: Result<VideoResult>)
    requires UniformFrames(source.frames)
    ensures r == InferSpec(path, source, outDir, cfg)
  {
    var sampled, _, _ := ReadFrames(source, cfg.sampler.everyNth, cfg.sampler.maxFrames);
    if sampled.Err? {
      return Err(sampled.error);
    }
    SampledPairsValid(source, cfg.sampler.everyNth, cfg.sampler.maxFrames);
    var scored := ScoreFrames(cfg, outDir, sampled.value);
    if scored.Err? {
      return Err(scored.error);
    }
    r := Ok(Aggregate(path, scored.value));
  }
}

/** What `infer_video` promises about its result. */
module InferProperties {
  import opened Wrappers
  import opened Numerics
  import opened Strings
  import Paths
  import opened Config
  import opened VideoIo
  import opened VideoIoProperties
  import opened Heuristics
  import opened Calibration
  import opened Explain
  import opened Infer

  /** One record per sampled pair, in sampler order, each score in [0, 1]
      with one to three reasons, and the global score the mean of the
      per-frame scores. */
  lemma InferShape(path: string, source: VideoSource, outDir: string, cfg: AppCfg)
    requires UniformFrames(source.frames)
    requires InferSpec(path, source, outDir, cfg).Ok?
    ensures var r := InferSpec(path, source, outDir, cfg).value;
      var pairs := ReadFramesSpec(source, cfg.sampler.everyNth, cfg.sampler.maxFrames).value;
      && r.videoPath == path
      && |r.frames| == |pairs| == r.summary.framesEvaluated
      && r.summary.flaggedSegments == []
      && 0.0 <= r.summary.globalScore <= 1.0
      && (r.frames == [] ==> r.summary.globalScore == 0.0)
      && (r.frames != [] ==> r.summary.globalScore == Mean(Scores(r.frames)))
      && (forall k :: 0 <= k < |r.frames| ==>
            && r.frames[k].index == pairs[k].0
            && 0.0 <= r.frames[k].score <= 1.0
            && 1 <= |r.frames[k].explanations| <= 3)
  {
    var r := InferSpec(path, source, outDir, cfg).value;
    var pairs := ReadFramesSpec(source, cfg.sampler.everyNth, cfg.sampler.maxFrames).value;
    SampledPairsValid(source, cfg.sampler.everyNth, cfg.sampler.maxFrames);
    assert r == Aggregate(path, ScoredFrames(cfg, outDir, pairs).value);
    if r.frames != [] {
      GlobalScoreIsMean(Scores(r.frames));
    }
  }

  /** When every score already lies in [0, 1] the clip does nothing. */
  lemma GlobalScoreIsMean(scores: seq<real>)
    requires scores != []
    requires forall k :: 0 <= k < |scores| ==> 0.0 <= scores[k] <= 1.0
    ensures GlobalScore(scores) == Mean(scores)
  {
    MeanBounds(scores, 0.0, 1.0);
  }

  lemma GlobalScoreExample()
    ensures GlobalScore([0.2, 0.4, 0.6]) == 0.4
    ensures GlobalScore([]) == 0.0
  {
    assert Sum([0.2, 0.4, 0.6]) == 0.2 + Sum([0.4, 0.6]);
    assert Sum([0.4, 0.6]) == 0.4 + Sum([0.6]);
    assert Sum([0.6]) == 0.6 + Sum([]);
    GlobalScoreIsMean([0.2, 0.4, 0.6]);
  }

  /** The errors `infer_video` raises: the sampler's, and the
      ZeroDivisionError of `save_every_n == 0` from the first frame on. */
  lemma InferErrors(path: string, source: VideoSource, outDir: string, cfg: AppCfg)
    requires UniformFrames(source.frames)
    ensures !source.opens ==> InferSpec(path, source, outDir, cfg) == Err(FileNotFound)
    ensures source.opens && cfg.sampler.maxFrames > 0 && source.frames != [] && cfg.sampler.everyNth == 0
      ==> InferSpec(path, source, outDir, cfg) == Err(ZeroDivision)
    ensures source.opens && cfg.sampler.maxFrames > 0 && source.frames != [] && cfg.sampler.everyNth != 0
        && cfg.output.saveHeatmaps && cfg.output.saveEveryN == 0
      ==> InferSpec(path, source, outDir, cfg) == Err(ZeroDivision)
    ensures source.opens && (cfg.sampler.maxFrames <= 0 || source.frames == [])
      ==> InferSpec(path, source, outDir, cfg) == Ok(Aggregate(path, []))
  {
    if source.opens && cfg.sampler.maxFrames > 0 && source.frames != [] && cfg.sampler.everyNth != 0 {
      ReadFramesLength(source, cfg.sampler.everyNth, cfg.sampler.maxFrames);
      var n := |source.frames|;
      MultiplesBelowBounds(n, Stride(cfg.sampler.everyNth));
    }
  }

  /** Floor division of the k-th sampled index by every_nth gives back ±k. */
  lemma StrideQuotient(k: nat, everyNth: int)
    requires everyNth != 0
    ensures FloorDiv(k * Stride(everyNth), everyNth) == if everyNth > 0 then k else -(k as int)
  {
    if everyNth > 0 {
      DivModUnique(k * everyNth, everyNth, k, 0);
    } else {
      assert k * Stride(everyNth) == everyNth * -(k as int);
      FloorDivUnique(k * Stride(everyNth), everyNth, -(k as int));
    }
  }

  lemma NegDivides(j: int, c: int)
    requires c != 0
    ensures (-j) % c == 0 <==> j % c == 0
  {
    if j % c == 0 {
      assert j == c * (j / c);
      DividesMod(-j, c, -(j / c));
    }
    if (-j) % c == 0 {
      assert -j == c * ((-j) / c);
      DividesMod(j, c, -((-j) / c));
    }
  }

  /** The heat map of the k-th sample: written, under its frame index, when
      k is a multiple of save_every_n. */
  function SampleHeatmap(cfg: AppCfg, outDir: string, k: nat): Option<string>
  {
    if cfg.output.saveHeatmaps && cfg.output.saveEveryN != 0 && k % cfg.output.saveEveryN == 0
    then Some(HeatmapPath(outDir, k * Stride(cfg.sampler.everyNth)))
    else None
  }

  /** The heat-map gate counts samples, not frames: the k-th sampled frame
      gets `<out_dir>/heatmaps/frame_<idx>.png` exactly when k is a multiple
      of save_every_n. */
  lemma HeatmapEveryNthSample(path: string, source: VideoSource, outDir: string, cfg: AppCfg, r: VideoResult, k: nat)
    requires UniformFrames(source.frames)
    requires InferSpec(path, source, outDir, cfg) == Ok(r)
    requires k < |r.frames|
    ensures r.frames[k].index == k * Stride(cfg.sampler.everyNth)
    ensures r.frames[k].heatmapPath == SampleHeatmap(cfg, outDir, k)
  {
    var pairs := ReadFramesSpec(source, cfg.sampler.everyNth, cfg.sampler.maxFrames).value;
    InferFrames(path, source, outDir, cfg);
    SampledIndex(source, cfg.sampler.everyNth, cfg.sampler.maxFrames, k);
    var f := RecordAt(cfg, outDir, pairs, k);
    assert r.frames[k] == f;
    RecordGate(cfg, outDir, pairs, k);
  }

  lemma InferFrames(path: string, source: VideoSource, outDir: string, cfg: AppCfg)
    requires UniformFrames(source.frames)
    requires InferSpec(path, source, outDir, cfg).Ok?
    ensures var pairs := ReadFramesSpec(source, cfg.sampler.everyNth, cfg.sampler.maxFrames).value;
      && ValidPairs(pairs)
      && (pairs != [] ==> cfg.sampler.everyNth != 0 && (cfg.output.saveHeatmaps ==> cfg.output.saveEveryN != 0))
      && (pairs != [] ==> InferSpec(path, source, outDir, cfg).value.frames == Records(cfg, outDir, pairs))
  {
    SampledPairsValid(source, cfg.sampler.everyNth, cfg.sampler.maxFrames);
  }

  /** The k-th sampled index is k·|every_nth|. */
  lemma SampledIndex(source: VideoSource, everyNth: int, maxFrames: int, k: nat)
    requires ReadFramesSpec(source, everyNth, maxFrames).Ok?
    requires k < |ReadFramesSpec(source, everyNth, maxFrames).value|
    ensures everyNth != 0 && ReadFramesSpec(source, everyNth, maxFrames).value[k].0 == k * Stride(everyNth)
  {
    var s := Stride(everyNth);
    var n := SampleCount(|source.frames|, everyNth, maxFrames);
    MultiplesBelowBounds(|source.frames|, s);
    MulMonotone(n - 1, MultiplesBelow(|source.frames|, s) - 1, s);
    assert ReadFramesSpec(source, everyNth, maxFrames).value == Sampled(source.frames, s, n);
  }

  lemma RecordGate(cfg: AppCfg, outDir: string, pairs: seq<(int, Frame)>, k: nat)
    requires cfg.sampler.everyNth != 0
    requires cfg.output.saveHeatmaps ==> cfg.output.saveEveryN != 0
    requires ValidPairs(pairs) && k < |pairs|
    requires pairs[k].0 == k * Stride(cfg.sampler.everyNth)
    ensures var f := RecordAt(cfg, outDir, pairs, k);
      && f.index == pairs[k].0
      && f.heatmapPath == SampleHeatmap(cfg, outDir, k)
  {
    if cfg.output.saveHeatmaps {
      var e, c := cfg.sampler.everyNth, cfg.output.saveEveryN;
      StrideQuotient(k, e);
      PyModZeroIff(FloorDiv(k * Stride(e), e), c);
      NegDivides(k, c);
    }
  }

  /** The first sampled frame has no predecessor, so its motion signal is 0. */
  lemma FirstFrameNoMotion(path: string, source: VideoSource, outDir: string, cfg: AppCfg)
    requires UniformFrames(source.frames)
    requires InferSpec(path, source, outDir, cfg).Ok?
    requires InferSpec(path, source, outDir, cfg).value.frames != []
    ensures var pairs := ReadFramesSpec(source, cfg.sampler.everyNth, cfg.sampler.maxFrames).value;
      var e := EdgeEnergy(pairs[0].1.sobelMeanMagnitude);
      var b := BlurScore(pairs[0].1.laplacianVariance);
      InferSpec(path, source, outDir, cfg).value.frames[0].score == Calibrate(RawScore(cfg.scoring, e, 0.0, b))
  {
    var pairs := ReadFramesSpec(source, cfg.sampler.everyNth, cfg.sampler.maxFrames).value;
    SampledPairsValid(source, cfg.sampler.everyNth, cfg.sampler.maxFrames);
    assert InferSpec(path, source, outDir, cfg).value.frames[0] == RecordAt(cfg, outDir, pairs, 0);
  }

  /** Distinct frame indices write distinct heat-map files. */
  lemma HeatmapPathInjective(outDir: string, m: nat, n: nat)
    requires m != n
    ensures HeatmapPath(outDir, m) != HeatmapPath(outDir, n)
  {
    var dir := Paths.Join(outDir, "heatmaps");
    var b1 := "frame_" + ZeroPad(m, 6) + ".png";
    var b2 := "frame_" + ZeroPad(n, 6) + ".png";
    ZeroPadInjective(m, n, 6);
    assert b1[6..|b1| - 4] == ZeroPad(m, 6);
    assert b2[6..|b2| - 4] == ZeroPad(n, 6);
    assert b1[0] == 'f' && b2[0] == 'f';
    var pre := if dir == [] || EndsWith(dir, "/") then dir else dir + "/";
    assert Paths.Join(dir, b1) == pre + b1;
    assert Paths.Join(dir, b2) == pre + b2;
    assert (pre + b1)[|pre|..] == b1;
    assert (pre + b2)[|pre|..] == b2;
  }
}
