/** scripts/randomized_tamper_variants.py: randomised tamper specifications
    and the frame-folder variants built from them. */
module TamperVariants {
  import opened Wrappers
  import opened Numerics
  import opened Strings
  import opened Listing
  import opened Pictures
  import opened RandomDraws
  import Paths

  // ---------------- parameter sampling ----------------

  datatype Severity = Subtle | Severe

  function SeverityName(s: Severity): string
  {
    if s == Subtle then "subtle" else "severe"
  }

  /** `SUBTLE_PROB`: the share of subtle variants. */
  const SubtleProb: real := 0.7

  /** `"subtle" if random.random() < SUBTLE_PROB else "severe"` */
  function DrawSeverity(u: real): (s: Severity)
    ensures s == Subtle <==> u < SubtleProb
  {
    if u < SubtleProb then Subtle else Severe
  }

  /** `sample_crop_ratio`: a uniform ratio rounded to three decimals. */
  function SampleCropRatio(severity: Severity, u: real): (r: real)
    requires IsDraw(u)
    ensures severity == Subtle ==> 0.10 <= r <= 0.25
    ensures severity == Severe ==> 0.30 <= r <= 0.65
  {
    if severity == Subtle then
      var x := Uniform(0.10, 0.25, u);
      Round3InRange(x, 100, 250);
      Round3(x)
    else
      var x := Uniform(0.30, 0.65, u);
      Round3InRange(x, 300, 650);
      Round3(x)
  }

  /** `sample_skip_interval`: subtle variants skip less often. */
  function SampleSkipInterval(severity: Severity, u: real): (si: int)
    requires IsDraw(u)
    ensures severity == Subtle ==> 8 <= si <= 15
    ensures severity == Severe ==> 2 <= si <= 7
  {
    if severity == Subtle then RandInt(8, 15, u) else RandInt(2, 7, u)
  }

  /** `sample_crf` */
  function SampleCrf(u: real): (crf: int)
    requires IsDraw(u)
    ensures 20 <= crf <= 40
  {
    RandInt(20, 40, u)
  }

  /** The unclamped quality: the line through (CRF 20, 95) and (CRF 40, 30),
      rounded half to even. */
  function LinearQuality(crf: int): int
  {
    RoundHalfEven(95.0 - ((crf - 20) as real / 20.0) * (95 - 30) as real)
  }

  /** `crf_to_jpeg_quality`: the rounded line, clamped into [10, 95]. */
  function CrfToJpegQuality(crf: int): (q: int)
    ensures 10 <= q <= 95
    ensures 10 <= LinearQuality(crf) <= 95 ==> q == LinearQuality(crf)
  {
    var q := LinearQuality(crf);
    if q < 10 then 10 else if q > 95 then 95 else q
  }

  // ---------------- tamper modes ----------------

  datatype Mode = Crop | Skip | Compress | CropCompress | SkipCompress

  function ModeName(m: Mode): string
  {
    match m
    case Crop => "crop"
    case Skip => "skip"
    case Compress => "compress"
    case CropCompress => "crop+compress"
    case SkipCompress => "skip+compress"
  }

  const Modes: seq<Mode> := [Crop, Skip, Compress, CropCompress, SkipCompress]
  const ModeWeights: seq<nat> := [2, 2, 1, 2, 2]
  /** The running totals `random.choices` bisects; `ModeCumulativeWeights`
      shows they are `accumulate(ModeWeights)`. */
  const CumWeights: seq<nat> := [2, 4, 5, 7, 9]

  /** `itertools.accumulate(weights)` */
  function Accumulate(w: seq<nat>): (c: seq<nat>)
    ensures |c| == |w|
  {
    if w == [] then []
    else
      var prefix := Accumulate(w[..|w| - 1]);
      prefix + [(if prefix == [] then 0 else prefix[|prefix| - 1]) + w[|w| - 1]]
  }

  /** `bisect_right(cum, x, 0, hi)`: the first index in [lo, hi) whose
      cumulative weight exceeds x, or hi. */
  function Bisect(cum: seq<nat>, x: real, lo: nat, hi: nat): (i: nat)
    requires lo <= hi <= |cum|
    ensures lo <= i <= hi
    ensures forall k :: lo <= k < i ==> cum[k] as real <= x
    ensures i < hi ==> x < cum[i] as real
    decreases hi - lo
  {
    if lo == hi then lo
    else if x < cum[lo] as real then lo
    else Bisect(cum, x, lo + 1, hi)
  }

  /** `random.choices(modes, weights=[2, 2, 1, 2, 2], k=1)[0]`: the draw,
      scaled by the total weight, picks the mode whose cumulative interval
      holds it. */
  function ChooseMode(u: real): Mode
    requires IsDraw(u)
  {
    var cum := CumWeights;
    Modes[Bisect(cum, u * cum[|cum| - 1] as real, 0, |cum| - 1)]
  }

  // ---------------- tamper specifications ----------------

  /** The `tamper_spec` dict: the optional keys are `None` when absent. */
  datatype TamperSpec = TamperSpec(
    mode: string, severity: string,
    cropRatio: Option<real>, skipInterval: Option<int>, crf: Option<int>)

  /** The draws one variant consumes, in call order. */
  datatype VariantDraws = VariantDraws(severity: real, mode: real, crop: real, skip: real, crf: real)

  predicate ValidDraws(d: VariantDraws)
  {
    IsDraw(d.severity) && IsDraw(d.mode) && IsDraw(d.crop) && IsDraw(d.skip) && IsDraw(d.crf)
  }

  /** The operations a mode names: `"crop" in mode`, `"skip" in mode` and
      `"compress" in mode`, decided on the mode itself (`ModeNameContains`
      shows these agree with the substring tests on its name). */
  predicate Crops(m: Mode) { m == Crop || m == CropCompress }
  predicate Skips(m: Mode) { m == Skip || m == SkipCompress }
  predicate Compresses(m: Mode) { m == Compress || m == CropCompress || m == SkipCompress }

  /** The `tamper_spec` construction: a key per operation named in the mode. */
  function BuildSpec(d: VariantDraws): TamperSpec
    requires ValidDraws(d)
  {
    var severity := DrawSeverity(d.severity);
    var m := ChooseMode(d.mode);
    TamperSpec(ModeName(m), SeverityName(severity),
      if Crops(m) then Some(SampleCropRatio(severity, d.crop)) else None,
      if Skips(m) then Some(SampleSkipInterval(severity, d.skip)) else None,
      if Compresses(m) then Some(SampleCrf(d.crf)) else None)
  }

  /** `f"{video}__variant_{vidx}_{mode}_s-{severity}"` */
  function VariantName(video: string, vidx: int, spec: TamperSpec): string
  {
    video + "__variant_" + IntToString(vidx) + "_" + spec.mode + "_s-" + spec.severity
  }

  // ---------------- image operations ----------------

  /** The `[x0, y0, cw, ch]` list `apply_crop_and_resize` returns. */
  datatype CropBox = CropBox(x0: int, y0: int, cw: int, ch: int)

  /** What the caller unpacks into `crop_box`: the box list, or, when the
      function returned the bare image copy, the second row of that array. */
  datatype CropValue = BoxList(box: CropBox) | PixelArray(row: Picture)

  /** `int(n * (1 - crop_ratio))` */
  function CropExtent(n: nat, ratio: real): int
  {
    Trunc(n as real * (1.0 - ratio))
  }

  /** `out_img, crop_box = apply_crop_and_resize(out_img, ratio)`. When the
      window is empty the function returns only the image copy and the
      two-name unpacking iterates over its rows: a two-row image yields its
      rows, any other height raises ValueError. A window wider or taller than
      the image makes `random.randint` raise ValueError (x first). */
  function ApplyCrop(img: Picture, ratio: real, draw: (real, real)): (r: Result<(Picture, CropValue)>)
    requires IsDraw(draw.0) && IsDraw(draw.1)
  {
    var h, w := img.rows, img.cols;
    var ch, cw := CropExtent(h, ratio), CropExtent(w, ratio);
    if ch <= 0 || cw <= 0 then
      if h == 2 then Ok((PixelRow(img, 0, w, 3), PixelArray(PixelRow(img, 1, w, 3))))
      else Err(ValueError)
    else if w - cw < 0 || h - ch < 0 then Err(ValueError)
    else
      var x0 := RandInt(0, w - cw, draw.0);
      var y0 := RandInt(0, h - ch, draw.1);
      Ok((Resized(Slice(img, y0, y0 + ch, x0, x0 + cw), h, w), BoxList(CropBox(x0, y0, cw, ch))))
  }

  // ---------------- one variant ----------------

  /** The frame files: `.jpg`, `.jpeg` or `.png`, in any letter case. */
  predicate IsFrameFile(e: Entry<Option<Picture>>)
  {
    var n := Lower(e.name);
    EndsWith(n, ".jpg") || EndsWith(n, ".jpeg") || EndsWith(n, ".png")
  }

  function Frames(listing: FrameFolder): (frames: FrameFolder)
    ensures |frames| <= |listing|
  {
    SortedSelection(listing, IsFrameFile)
  }

  /** `skipped_indices`: every index divisible by a non-zero `skip_interval`. */
  function SkipSet(n: int, skip: Option<int>): set<int>
  {
    if skip.Some? && skip.value != 0 then set i | 0 <= i < n && i % skip.value == 0 else {}
  }

  /** `jpeg_quality`: set exactly when the spec carries a CRF. */
  function Quality(spec: TamperSpec): Option<int>
  {
    if spec.crf.Some? then Some(CrfToJpegQuality(spec.crf.value)) else None
  }

  /** A file the variant writes: its path, its image and, for the JPEG path,
      the encoding quality. */
  datatype Written = Written(path: string, picture: Picture, jpegQuality: Option<int>)

  /** What the per-frame loop carries: `saved`, `failed`, `crop_box` and the
      files written so far. */
  datatype LoopState = LoopState(saved: nat, failed: seq<string>, cropBox: Option<CropValue>, written: seq<Written>)

  /** What one frame's processing depends on besides the frame itself.
      `encodeFails` names the frames whose JPEG encoding or write fails;
      `cropDraw(i)` is the pair of draws the crop of frame i consumes. */
  datatype Job = Job(
    spec: TamperSpec, skipped: set<int>, quality: Option<int>, outDir: string,
    encodeFails: set<string>, cropDraw: nat -> (real, real))

  function MakeJob(spec: TamperSpec, n: nat, dstFolder: string, encodeFails: set<string>,
                   cropDraw: nat -> (real, real)): Job
  {
    Job(spec, SkipSet(n, spec.skipInterval), Quality(spec), Paths.Join(dstFolder, "frames"),
        encodeFails, cropDraw)
  }

  /** The crop step of one frame: the image to save and the new `crop_box`. */
  function CropStep(job: Job, i: nat, img: Picture, box: Option<CropValue>): Result<(Picture, Option<CropValue>)>
    requires DrawPairs(job.cropDraw)
  {
    match job.spec.cropRatio
    case None => Ok((img, box))
    case Some(ratio) =>
      var c :- ApplyCrop(img, ratio, job.cropDraw(i));
      Ok((c.0, Some(c.1)))
  }

  /** One iteration of the per-frame loop. */
  function FrameStep(job: Job, i: nat, e: Entry<Option<Picture>>, st: LoopState): Result<LoopState>
    requires DrawPairs(job.cropDraw)
  {
    if i in job.skipped then Ok(st)
    else if e.content.None? then Ok(st.(failed := st.failed + [e.name]))
    else
      var c :- CropStep(job, i, e.content.value, st.cropBox);
      var st' := st.(cropBox := c.1);
      if job.quality.Some? && e.name in job.encodeFails then Ok(st'.(failed := st'.failed + [e.name]))
      else Ok(st'.(saved := st'.saved + 1,
                   written := st'.written + [Written(Paths.Join(job.outDir, e.name), c.0, job.quality)]))
  }

  const StartState := LoopState(0, [], None, [])

  /** The loop over the first k frames: the state reached and the error that
      stopped it, if any. */
  function RunFrames(job: Job, frames: FrameFolder, k: nat): (LoopState, Option<PyError>)
    requires DrawPairs(job.cropDraw)
    requires k <= |frames|
  {
    if k == 0 then (StartState, None)
    else
      var (st, err) := RunFrames(job, frames, k - 1);
      if err.Some? then (st, err)
      else match FrameStep(job, k - 1, frames[k - 1], st)
        case Ok(st') => (st', None)
        case Err(e) => (st, Some(e))
  }

  /** The `metadata` dict, without `created_at`. */
  datatype Metadata = Metadata(
    variantOf: string, variantId: string, spec: TamperSpec,
    numInputFrames: nat, numOutputFrames: nat, skippedFramesCount: nat,
    cropBox: Option<CropValue>, jpegQuality: Option<int>, failedFrames: seq<string>)

  /** `{"status": "no_frames"}` or the metadata. */
  datatype VariantResult = NoFrames | Variant(meta: Metadata)

  /** `create_variant_from_frame_folder`: the result and the frame files it
      writes (also those written before an exception). The metadata's
      `json.dump` fails on a `crop_box` that is an image row. */
  function CreateVariantSpec(srcFolder: string, dstFolder: string, listing: FrameFolder,
                             spec: TamperSpec, encodeFails: set<string>,
                             cropDraw: nat -> (real, real)): (Result<VariantResult>, seq<Written>)
    requires DrawPairs(cropDraw)
  {
    var frames := Frames(listing);
    if frames == [] then (Ok(NoFrames), [])
    else
      var job := MakeJob(spec, |frames|, dstFolder, encodeFails, cropDraw);
      var (st, err) := RunFrames(job, frames, |frames|);
      if err.Some? then (Err(err.value), st.written)
      else if st.cropBox.Some? && st.cropBox.value.PixelArray? then (Err(TypeError), st.written)
      else
        (Ok(Variant(Metadata(Paths.Basename(srcFolder), Paths.Basename(dstFolder), spec,
                             |frames|, st.saved, |job.skipped|, st.cropBox, job.quality, st.failed))),
         st.written)
  }

  lemma {:induction false} ErrorPersists(job: Job, frames: FrameFolder, k: nat, n: nat)
    requires DrawPairs(job.cropDraw)
    requires k <= n <= |frames|
    requires RunFrames(job, frames, k).1.Some?
    ensures RunFrames(job, frames, n) == RunFrames(job, frames, k)
    decreases n
  {
    if n > k {
      ErrorPersists(job, frames, k, n - 1);
    }
  }

  lemma SkipSetStep(k: nat, skip: Option<int>)
    ensures SkipSet(k + 1, skip) == SkipSet(k, skip) + (if k in SkipSet(k + 1, skip) then {k} else {})
    ensures |SkipSet(k + 1, skip)| == |SkipSet(k, skip)| + (if k in SkipSet(k + 1, skip) then 1 else 0)
  {
    if skip.Some? && skip.value != 0 {
      assert SkipSet(k + 1, skip) == SkipSet(k, skip) + (if k % skip.value == 0 then {k} else {});
    }
  }

  /** The `skipped_indices` loop. */
  method SkippedIndices(n: nat, skip: Option<int>) returns (skipped: set<int>)
    ensures skipped == SkipSet(n, skip)
  {
    skipped := {};
    if skip.Some? && skip.value != 0 {
      var si := skip.value;
      for i := 0 to n
        invariant skipped == SkipSet(i, skip)
      {
        SkipSetStep(i, skip);
        if i % si == 0 {
          skipped := skipped + {i};
        }
      }
    }
  }

  /** The per-frame loop; an exception leaves it with the state reached. */
  method ProcessFrames(job: Job, frames: FrameFolder) returns (st: LoopState, err: Option<PyError>)
    requires DrawPairs(job.cropDraw)
    ensures (st, err) == RunFrames(job, frames, |frames|)
  {
    var saved: nat := 0;
    var failed: seq<string> := [];
    var cropBox: Option<CropValue> := None;
    var written: seq<Written> := [];
    for i := 0 to |frames|
      invariant RunFrames(job, frames, i) == (LoopState(saved, failed, cropBox, written), None)
    {
      if i in job.skipped {
        continue;
      }
      var name := frames[i].name;
      if frames[i].content.None? {
        failed := failed + [name];
        continue;
      }
      var outImg := frames[i].content.value;
      if job.spec.cropRatio.Some? {
        var c := ApplyCrop(outImg, job.spec.cropRatio.value, job.cropDraw(i));
        if c.Err? {
          ErrorPersists(job, frames, i + 1, |frames|);
          return LoopState(saved, failed, cropBox, written), Some(c.error);
        }
        outImg, cropBox := c.value.0, Some(c.value.1);
      }
      var outPath := Paths.Join(job.outDir, name);
      if job.quality.Some? && name in job.encodeFails {
        failed := failed + [name];
        continue;
      }
      written := written + [Written(outPath, outImg, job.quality)];
      saved := saved + 1;
    }
    return LoopState(saved, failed, cropBox, written), None;
  }

  method CreateVariant(srcFolder: string, dstFolder: string, listing: FrameFolder,
                       spec: TamperSpec, encodeFails: set<string>, cropDraw: nat -> (real, real))
    returns (r: Result<VariantResult>, written: seq<Written>)
    requires DrawPairs(cropDraw)
    ensures (r, written) == CreateVariantSpec(srcFolder, dstFolder, listing, spec, encodeFails, cropDraw)
  {
    var framesOutDir := Paths.Join(dstFolder, "frames");
    var frames := Frames(listing);
    if |frames| == 0 {
      return Ok(NoFrames), [];
    }
    var skipped := SkippedIndices(|frames|, spec.skipInterval);
    var jpegQuality: Option<int> := None;
    if spec.crf.Some? {
      jpegQuality := Some(CrfToJpegQuality(spec.crf.value));
    }
    var st, err := ProcessFrames(Job(spec, skipped, jpegQuality, framesOutDir, encodeFails, cropDraw), frames);
    written := st.written;
    if err.Some? {
      return Err(err.value), written;
    }
    if st.cropBox.Some? && st.cropBox.value.PixelArray? {
      return Err(TypeError), written;
    }
    r := Ok(Variant(Metadata(Paths.Basename(srcFolder), Paths.Basename(dstFolder), spec,
                             |frames|, st.saved, |skipped|, st.cropBox, jpegQuality, st.failed)));
  }

  // ---------------- all videos ----------------

  type FramesRoot = seq<Entry<Option<FrameFolder>>>

  /** A root entry that is a directory: its content is the folder's listing. */
  predicate IsVideoFolder(e: Entry<Option<FrameFolder>>)
  {
    e.content.Some?
  }

  function VideoFolders(root: FramesRoot): (videos: FramesRoot)
    ensures forall i :: 0 <= i < |videos| ==> videos[i].content.Some?
  {
    var videos := SortedSelection(root, IsVideoFolder);
    assert forall i :: 0 <= i < |videos| ==> videos[i] in videos;
    videos
  }

  datatype SummaryEntry = SummaryEntry(video: string, variant: string, metadata: VariantResult)

  /** The draws and encoder outcomes of one variant. */
  datatype VariantEnv = VariantEnv(draws: VariantDraws, encodeFails: set<string>, cropDraw: nat -> (real, real))

  ghost predicate ValidEnvs(envs: (string, int) -> VariantEnv)
  {
    forall v, j :: ValidDraws(envs(v, j).draws) && DrawPairs(envs(v, j).cropDraw)
  }

  /** The number of iterations of `range(1, n_variants + 1)`. */
  function VariantCount(nVariants: int): nat
  {
    if nVariants > 0 then nVariants else 0
  }

  /** Variant `vidx` of one video; `envs(video, vidx)` holds its draws. */
  function VariantEntry(framesRoot: string, outRoot: string, video: Entry<Option<FrameFolder>>,
                        vidx: int, env: VariantEnv): Result<SummaryEntry>
    requires video.content.Some?
    requires ValidDraws(env.draws) && DrawPairs(env.cropDraw)
  {
    var spec := BuildSpec(env.draws);
    var name := VariantName(video.name, vidx, spec);
    var meta :- CreateVariantSpec(Paths.Join(framesRoot, video.name), Paths.Join(outRoot, name),
                                  video.content.value, spec, env.encodeFails, env.cropDraw).0;
    Ok(SummaryEntry(video.name, name, meta))
  }

  /** One entry per `vidx` in `range(1, n_variants + 1)`. */
  function VariantResults(framesRoot: string, outRoot: string, video: Entry<Option<FrameFolder>>,
                          nVariants: int, envs: (string, int) -> VariantEnv): (rs: seq<Result<SummaryEntry>>)
    requires video.content.Some? && ValidEnvs(envs)
    ensures |rs| == VariantCount(nVariants)
  {
    seq(VariantCount(nVariants), i requires 0 <= i => VariantEntry(framesRoot, outRoot, video, i + 1, envs(video.name, i + 1)))
  }

  /** Entry i of the results is variant i + 1. */
  lemma VariantResultAt(framesRoot: string, outRoot: string, video: Entry<Option<FrameFolder>>,
                        nVariants: int, envs: (string, int) -> VariantEnv, i: nat)
    requires video.content.Some? && ValidEnvs(envs) && i < VariantCount(nVariants)
    ensures ValidDraws(envs(video.name, i + 1).draws) && DrawPairs(envs(video.name, i + 1).cropDraw)
    ensures VariantResults(framesRoot, outRoot, video, nVariants, envs)[i]
         == VariantEntry(framesRoot, outRoot, video, i + 1, envs(video.name, i + 1))
  {
  }

  /** A variant's entry is its metadata under its name, or its exception. */
  lemma EntryOfMeta(framesRoot: string, outRoot: string, video: Entry<Option<FrameFolder>>,
                    vidx: int, env: VariantEnv, meta: Result<VariantResult>)
    requires video.content.Some? && ValidDraws(env.draws) && DrawPairs(env.cropDraw)
    requires var name := VariantName(video.name, vidx, BuildSpec(env.draws));
      meta == CreateVariantSpec(Paths.Join(framesRoot, video.name), Paths.Join(outRoot, name),
                                video.content.value, BuildSpec(env.draws), env.encodeFails, env.cropDraw).0
    ensures VariantEntry(framesRoot, outRoot, video, vidx, env)
         == if meta.Err? then Err(meta.error)
            else Ok(SummaryEntry(video.name, VariantName(video.name, vidx, BuildSpec(env.draws)), meta.value))
  {
  }

  /** The summary entries of one video folder. */
  function VideoVariants(framesRoot: string, outRoot: string, video: Entry<Option<FrameFolder>>,
                         nVariants: int, envs: (string, int) -> VariantEnv): Result<seq<SummaryEntry>>
    requires video.content.Some? && ValidEnvs(envs)
  {
    Collect(VariantResults(framesRoot, outRoot, video, nVariants, envs))
  }

  function VideoResults(framesRoot: string, outRoot: string, videos: FramesRoot, nVariants: int,
                        envs: (string, int) -> VariantEnv): (rs: seq<Result<seq<SummaryEntry>>>)
    requires ValidEnvs(envs)
    requires forall i :: 0 <= i < |videos| ==> videos[i].content.Some?
    ensures |rs| == |videos|
  {
    seq(|videos|, i requires 0 <= i < |videos| => VideoVariants(framesRoot, outRoot, videos[i], nVariants, envs))
  }

  /** `generate_variants_for_all_videos`: the returned summary. */
  function GenerateSpec(framesRoot: string, outRoot: string, root: FramesRoot, nVariants: int,
                        envs: (string, int) -> VariantEnv): Result<seq<SummaryEntry>>
    requires ValidEnvs(envs)
  {
    var parts :- Collect(VideoResults(framesRoot, outRoot, VideoFolders(root), nVariants, envs));
    Ok(Flatten(parts))
  }

  /** The variants of one video folder (the inner loop). */
  method MakeVideoVariants(framesRoot: string, outRoot: string, video: Entry<Option<FrameFolder>>,
                           nVariants: int, envs: (string, int) -> VariantEnv)
    returns (r: Result<seq<SummaryEntry>>)
    requires video.content.Some? && ValidEnvs(envs)
    ensures r == VideoVariants(framesRoot, outRoot, video, nVariants, envs)
  {
    ghost var rs := VariantResults(framesRoot, outRoot, video, nVariants, envs);
    var part: seq<SummaryEntry> := [];
    var vidx := 1;
    while vidx <= nVariants
      invariant 1 <= vidx <= |rs| + 1
      invariant Collect(rs[..vidx - 1]) == Ok(part)
    {
      var env := envs(video.name, vidx);
      VariantResultAt(framesRoot, outRoot, video, nVariants, envs, vidx - 1);
      var spec := BuildSpec(env.draws);
      var name := VariantName(video.name, vidx, spec);
      var meta, _ := CreateVariant(Paths.Join(framesRoot, video.name), Paths.Join(outRoot, name),
                                   video.content.value, spec, env.encodeFails, env.cropDraw);
      EntryOfMeta(framesRoot, outRoot, video, vidx, env, meta);
      if meta.Err? {
        CollectErr(rs, vidx - 1);
        return Err(meta.error);
      }
      CollectOk(rs, vidx - 1, part, SummaryEntry(video.name, name, meta.value));
      part := part + [SummaryEntry(video.name, name, meta.value)];
      vidx := vidx + 1;
    }
    assert rs[..vidx - 1] == rs;
    return Ok(part);
  }

  method GenerateVariants(framesRoot: string, outRoot: string, root: FramesRoot, nVariants: int,
                          envs: (string, int) -> VariantEnv)
    returns (r: Result<seq<SummaryEntry>>)
    requires ValidEnvs(envs)
    ensures r == GenerateSpec(framesRoot, outRoot, root, nVariants, envs)
  {
    var videos := VideoFolders(root);
    ghost var rs := VideoResults(framesRoot, outRoot, videos, nVariants, envs);
    ghost var parts: seq<seq<SummaryEntry>> := [];
    var summary: seq<SummaryEntry> := [];
    for k := 0 to |videos|
      invariant Collect(rs[..k]) == Ok(parts)
      invariant summary == Flatten(parts)
    {
      var part := MakeVideoVariants(framesRoot, outRoot, videos[k], nVariants, envs);
      CollectStep(rs, k);
      if part.Err? {
        CollectStopsAtError(rs, k + 1);
        return Err(part.error);
      }
      assert Flatten(parts + [part.value]) == Flatten(parts) + part.value;
      parts := parts + [part.value];
      summary := summary + part.value;
    }
    assert rs[..|videos|] == rs;
    return Ok(summary);
  }
}

/** What the tamper-variant generator promises: parameter ranges, the mode
    weights, the crop window, the frame accounting of a variant and the shape
    of the summary. */
module TamperVariantsProperties {
  import opened Wrappers
  import opened Numerics
  import opened Strings
  import opened Listing
  import opened Pictures
  import opened RandomDraws
  import opened TamperVariants

  // ---------------- sampling ----------------

  /** CRF 20 maps to quality 95 and CRF 40 to 30; a half-way value rounds to
      the even neighbour (CRF 22: 88.5 → 88); out-of-range CRFs clamp. */
  lemma CrfQualityExamples()
    ensures CrfToJpegQuality(20) == 95 && CrfToJpegQuality(40) == 30
    ensures CrfToJpegQuality(22) == 88 && CrfToJpegQuality(30) == 62
    ensures CrfToJpegQuality(0) == 95 && CrfToJpegQuality(60) == 10
  {
    assert LinearQuality(20) == RoundHalfEven(95.0);
    RoundHalfEvenOfInt(95);
    assert LinearQuality(40) == RoundHalfEven(30.0);
    RoundHalfEvenOfInt(30);
    assert LinearQuality(22) == RoundHalfEven(88.5);
    assert LinearQuality(30) == RoundHalfEven(62.5);
    assert LinearQuality(0) == RoundHalfEven(160.0);
    RoundHalfEvenOfInt(160);
    assert LinearQuality(60) == RoundHalfEven(-35.0);
    RoundHalfEvenOfInt(-35);
  }

  /** A higher CRF never gives a higher quality. */
  lemma CrfQualityMonotone(a: int, b: int)
    requires a <= b
    ensures CrfToJpegQuality(b) <= CrfToJpegQuality(a)
  {
    var xa := 95.0 - ((a - 20) as real / 20.0) * (95 - 30) as real;
    var xb := 95.0 - ((b - 20) as real / 20.0) * (95 - 30) as real;
    assert xb <= xa;
    RoundHalfEvenMonotone(xb, xa);
  }

  /** Every sampled CRF gives a quality in [30, 95]. */
  lemma SampledQualityRange(crf: int)
    requires 20 <= crf <= 40
    ensures 30 <= CrfToJpegQuality(crf) <= 95
  {
    CrfQualityExamples();
    CrfQualityMonotone(crf, 40);
  }

  /** Every three-decimal crop ratio of each severity's range is a possible
      sample. */
  lemma CropRatioCovers(severity: Severity, v: int)
    requires severity == Subtle ==> 100 <= v < 250
    requires severity == Severe ==> 300 <= v < 650
    ensures var lo := if severity == Subtle then 0.10 else 0.30;
            var hi := if severity == Subtle then 0.25 else 0.65;
            var u := (v as real / 1000.0 - lo) / (hi - lo);
            IsDraw(u) && SampleCropRatio(severity, u) == v as real / 1000.0
  {
    var lo := if severity == Subtle then 0.10 else 0.30;
    var hi := if severity == Subtle then 0.25 else 0.65;
    var x := v as real / 1000.0;
    UniformCovers(lo, hi, x);
    assert x * 1000.0 == v as real;
    RoundHalfEvenOfInt(v);
  }

  /** The cumulative weights of the five modes. */
  lemma ModeCumulativeWeights()
    ensures Accumulate(ModeWeights) == CumWeights
  {
    var w: seq<nat> := [2, 2, 1, 2, 2];
    assert w[..1][..0] == [];
    assert Accumulate(w[..1]) == [2];
    assert w[..2][..1] == w[..1];
    assert Accumulate(w[..2]) == [2, 4];
    assert w[..3][..2] == w[..2];
    assert Accumulate(w[..3]) == [2, 4, 5];
    assert w[..4][..3] == w[..3];
    assert Accumulate(w[..4]) == [2, 4, 5, 7];
    assert w[..4] == w[..|w| - 1];
  }

  /** The mode drawn: the scaled draw 9·u falls into an interval of the
      cumulative weights, so each mode is picked with probability weight/9. */
  lemma ModeIntervals(u: real)
    requires IsDraw(u)
    ensures ChooseMode(u) == Crop <==> u * 9.0 < 2.0
    ensures ChooseMode(u) == Skip <==> 2.0 <= u * 9.0 < 4.0
    ensures ChooseMode(u) == Compress <==> 4.0 <= u * 9.0 < 5.0
    ensures ChooseMode(u) == CropCompress <==> 5.0 <= u * 9.0 < 7.0
    ensures ChooseMode(u) == SkipCompress <==> 7.0 <= u * 9.0
  {
    var cum := CumWeights;
    var x := u * 9.0;
    var i := Bisect(cum, x, 0, 4);
    assert ChooseMode(u) == Modes[i];
    assert i == 0 <==> x < 2.0;
    assert i == 1 <==> 2.0 <= x < 4.0;
    assert i == 2 <==> 4.0 <= x < 5.0;
    assert i == 3 <==> 5.0 <= x < 7.0;
  }

  /** The substring tests on a mode's name pick out the operations it names. */
  lemma ModeNameContains(m: Mode)
    ensures Contains(ModeName(m), "crop") <==> Crops(m)
    ensures Contains(ModeName(m), "skip") <==> Skips(m)
    ensures Contains(ModeName(m), "compress") <==> Compresses(m)
  {
    NameHasCrop(m);
    NameHasSkip(m);
    NameHasCompress(m);
  }

  lemma NameHasCrop(m: Mode)
    ensures Contains(ModeName(m), "crop") <==> Crops(m)
  {
    match m
    case Crop => CropName();
    case Skip => SkipName();
    case Compress => CompressName();
    case CropCompress => CropCompressName();
    case SkipCompress => SkipCompressName();
  }

  lemma NameHasSkip(m: Mode)
    ensures Contains(ModeName(m), "skip") <==> Skips(m)
  {
    match m
    case Crop => CropName();
    case Skip => SkipName();
    case Compress => CompressName();
    case CropCompress => CropCompressName();
    case SkipCompress => SkipCompressName();
  }

  lemma NameHasCompress(m: Mode)
    ensures Contains(ModeName(m), "compress") <==> Compresses(m)
  {
    match m
    case Crop => CropName();
    case Skip => SkipName();
    case Compress => CompressName();
    case CropCompress => CropCompressName();
    case SkipCompress => SkipCompressName();
  }

  lemma CropName()
    ensures Contains("crop", "crop") && !Contains("crop", "skip") && !Contains("crop", "compress")
  {
    assert OccursAt("crop", "crop", 0);
    AbsentByLeadingPair("crop", "skip");
  }

  lemma SkipName()
    ensures Contains("skip", "skip") && !Contains("skip", "crop") && !Contains("skip", "compress")
  {
    assert OccursAt("skip", "skip", 0);
    AbsentByLeadingPair("skip", "crop");
  }

  lemma CompressName()
    ensures Contains("compress", "compress") && !Contains("compress", "crop") && !Contains("compress", "skip")
  {
    assert OccursAt("compress", "compress", 0);
    AbsentByLeadingPair("compress", "crop");
    AbsentByLeadingPair("compress", "skip");
  }

  lemma CropCompressName()
    ensures Contains("crop+compress", "crop") && Contains("crop+compress", "compress")
    ensures !Contains("crop+compress", "skip")
  {
    assert OccursAt("crop+compress", "crop", 0);
    assert OccursAt("crop+compress", "compress", 5);
    AbsentByLeadingPair("crop+compress", "skip");
  }

  lemma SkipCompressName()
    ensures Contains("skip+compress", "skip") && Contains("skip+compress", "compress")
    ensures !Contains("skip+compress", "crop")
  {
    assert OccursAt("skip+compress", "skip", 0);
    assert OccursAt("skip+compress", "compress", 5);
    AbsentByLeadingPair("skip+compress", "crop");
  }

  /** The spec carries a key for exactly the operations its mode names. */
  lemma SpecKeys(d: VariantDraws)
    requires ValidDraws(d)
    ensures BuildSpec(d).mode == ModeName(ChooseMode(d.mode))
    ensures BuildSpec(d).severity == SeverityName(DrawSeverity(d.severity))
    ensures BuildSpec(d).cropRatio.Some? <==> ChooseMode(d.mode) == Crop || ChooseMode(d.mode) == CropCompress
    ensures BuildSpec(d).skipInterval.Some? <==> ChooseMode(d.mode) == Skip || ChooseMode(d.mode) == SkipCompress
    ensures BuildSpec(d).crf.Some? <==> ChooseMode(d.mode) != Crop && ChooseMode(d.mode) != Skip
    ensures BuildSpec(d).cropRatio.Some? <==> Contains(BuildSpec(d).mode, "crop")
    ensures BuildSpec(d).skipInterval.Some? <==> Contains(BuildSpec(d).mode, "skip")
    ensures BuildSpec(d).crf.Some? <==> Contains(BuildSpec(d).mode, "compress")
  {
    ModeNameContains(ChooseMode(d.mode));
  }

  /** Every parameter of a spec lies in the range of its severity. */
  lemma SpecRanges(d: VariantDraws)
    requires ValidDraws(d)
    ensures BuildSpec(d).cropRatio.Some? && d.severity < SubtleProb ==> 0.10 <= BuildSpec(d).cropRatio.value <= 0.25
    ensures BuildSpec(d).cropRatio.Some? && d.severity >= SubtleProb ==> 0.30 <= BuildSpec(d).cropRatio.value <= 0.65
    ensures BuildSpec(d).skipInterval.Some? && d.severity < SubtleProb ==> 8 <= BuildSpec(d).skipInterval.value <= 15
    ensures BuildSpec(d).skipInterval.Some? && d.severity >= SubtleProb ==> 2 <= BuildSpec(d).skipInterval.value <= 7
    ensures BuildSpec(d).crf.Some? ==> 20 <= BuildSpec(d).crf.value <= 40
    ensures Quality(BuildSpec(d)).Some? ==> 30 <= Quality(BuildSpec(d)).value <= 95
  {
    if BuildSpec(d).crf.Some? {
      SampledQualityRange(BuildSpec(d).crf.value);
    }
  }

  // ---------------- cropping ----------------

  /** With a non-negative ratio the window fits in the side. */
  lemma CropExtentFits(n: nat, ratio: real)
    requires 0.0 <= ratio
    ensures CropExtent(n, ratio) <= n
  {
    MulNonNeg(n as real, ratio);
    assert n as real * (1.0 - ratio) == n as real - n as real * ratio;
  }

  /** A non-empty window is a sub-rectangle of the image, scaled back to the
      image's size; an empty one succeeds only through the two-row
      unpacking. */
  lemma CropWindow(img: Picture, ratio: real, draw: (real, real))
    requires IsDraw(draw.0) && IsDraw(draw.1) && 0.0 <= ratio
    ensures CropExtent(img.rows, ratio) > 0 && CropExtent(img.cols, ratio) > 0 ==>
      ApplyCrop(img, ratio, draw).Ok? && ApplyCrop(img, ratio, draw).value.1.BoxList? &&
      WindowInside(img, ApplyCrop(img, ratio, draw).value.1.box) &&
      ApplyCrop(img, ratio, draw).value.0 == Window(img, ApplyCrop(img, ratio, draw).value.1.box)
    ensures CropExtent(img.rows, ratio) <= 0 || CropExtent(img.cols, ratio) <= 0 ==>
      (ApplyCrop(img, ratio, draw).Ok? <==> img.rows == 2)
  {
    CropExtentFits(img.rows, ratio);
    CropExtentFits(img.cols, ratio);
  }

  /** The box lies inside the image. */
  predicate WindowInside(img: Picture, b: CropBox)
  {
    0 <= b.x0 && 0 < b.cw && b.x0 + b.cw <= img.cols &&
    0 <= b.y0 && 0 < b.ch && b.y0 + b.ch <= img.rows
  }

  /** The pixels of the box, resized to the image's size. */
  function Window(img: Picture, b: CropBox): Picture
    requires WindowInside(img, b)
  {
    Resized(Region(img, b.y0, b.x0, b.ch, b.cw), img.rows, img.cols)
  }

  /** Sampled ratios never empty the window of an image at least three
      pixels high and wide. */
  lemma SampledCropNonEmpty(n: nat, ratio: real)
    requires n >= 3 && 0.0 <= ratio <= 0.65
    ensures CropExtent(n, ratio) >= 1
  {
    MulNonNeg((n - 3) as real, 1.0 - ratio);
    assert n as real * (1.0 - ratio) == (n - 3) as real * (1.0 - ratio) + 3.0 * (1.0 - ratio);
  }

  /** A one-row image with any positive ratio empties the window, and the
      caller's unpacking of the bare copy fails. */
  lemma OneRowCropFails(img: Picture, ratio: real, draw: (real, real))
    requires IsDraw(draw.0) && IsDraw(draw.1)
    requires img.rows == 1 && 0.0 < ratio <= 1.0
    ensures ApplyCrop(img, ratio, draw) == Err(ValueError)
  {
  }

  /** A two-row image with a ratio above one half leaves the pixel rows in
      place of the image and the crop box. */
  lemma TwoRowCropUnpacksRows(img: Picture, ratio: real, draw: (real, real))
    requires IsDraw(draw.0) && IsDraw(draw.1)
    requires img.rows == 2 && 0.5 < ratio <= 1.0
    ensures ApplyCrop(img, ratio, draw)
         == Ok((PixelRow(img, 0, img.cols, 3), PixelArray(PixelRow(img, 1, img.cols, 3))))
  {
    assert 2.0 * (1.0 - ratio) < 1.0;
  }

  // ---------------- one variant ----------------

  /** The loop's bookkeeping after k frames: every frame is saved, failed or
      skipped, and every file written carries the variant's quality. */
  predicate Balanced(job: Job, st: LoopState, k: nat)
  {
    st.saved + |st.failed| + |SkipSet(k, job.spec.skipInterval)| == k &&
    |st.written| == st.saved &&
    forall i :: 0 <= i < |st.written| ==> st.written[i].jpegQuality == job.quality
  }

  lemma {:induction false} RunBalanced(job: Job, frames: FrameFolder, k: nat)
    requires DrawPairs(job.cropDraw) && k <= |frames|
    requires job.skipped == SkipSet(|frames|, job.spec.skipInterval)
    ensures RunFrames(job, frames, k).1.None? ==> Balanced(job, RunFrames(job, frames, k).0, k)
  {
    if k > 0 {
      RunBalanced(job, frames, k - 1);
      SkipSetStep(k - 1, job.spec.skipInterval);
      assert (k - 1 in job.skipped) <==> (k - 1 in SkipSet(k, job.spec.skipInterval));
    }
  }

  /** `num_output_frames + skipped_frames_count + len(failed_frames) ==
      num_input_frames`; every written frame is counted once and carries the
      variant's JPEG quality, which is the spec's CRF mapped. */
  lemma VariantAccounting(srcFolder: string, dstFolder: string, listing: FrameFolder,
                          spec: TamperSpec, encodeFails: set<string>, cropDraw: nat -> (real, real),
                          m: Metadata, written: seq<Written>)
    requires DrawPairs(cropDraw)
    requires CreateVariantSpec(srcFolder, dstFolder, listing, spec, encodeFails, cropDraw) == (Ok(Variant(m)), written)
    ensures m.numOutputFrames + m.skippedFramesCount + |m.failedFrames| == m.numInputFrames
    ensures m.numInputFrames == |Frames(listing)| > 0
    ensures |written| == m.numOutputFrames
    ensures m.jpegQuality == Quality(spec)
    ensures forall i :: 0 <= i < |written| ==> written[i].jpegQuality == m.jpegQuality
    ensures m.spec == spec
  {
    var frames := Frames(listing);
    var job := MakeJob(spec, |frames|, dstFolder, encodeFails, cropDraw);
    RunBalanced(job, frames, |frames|);
  }

  /** An empty frame folder writes nothing. */
  lemma NoFramesWritesNothing(srcFolder: string, dstFolder: string, listing: FrameFolder,
                              spec: TamperSpec, encodeFails: set<string>, cropDraw: nat -> (real, real))
    requires DrawPairs(cropDraw)
    requires forall i :: 0 <= i < |listing| ==> !IsFrameFile(listing[i])
    ensures CreateVariantSpec(srcFolder, dstFolder, listing, spec, encodeFails, cropDraw) == (Ok(NoFrames), [])
  {
  }

  /** With interval si > 0 the skip rule drops ceil(n / si) of n frames,
      the first frame among them. */
  lemma {:induction false} SkipCount(n: nat, si: int)
    requires si > 0
    ensures |SkipSet(n, Some(si))| == (n + si - 1) / si
    ensures n > 0 ==> 0 in SkipSet(n, Some(si))
  {
    if n == 0 {
      DivModUnique(si - 1, si, 0, si - 1);
    } else {
      SkipCount(n - 1, si);
      SkipSetStep(n - 1, Some(si));
      CeilDivStep(n - 1, si);
    }
  }

  // ---------------- all videos ----------------

  /** Every entry of one video's summary names the video, the variant folder
      built from its own draws, and the metadata of that variant. */
  lemma VideoVariantsShape(framesRoot: string, outRoot: string, video: Entry<Option<FrameFolder>>,
                           nVariants: int, envs: (string, int) -> VariantEnv, p: seq<SummaryEntry>)
    requires video.content.Some? && ValidEnvs(envs)
    requires VideoVariants(framesRoot, outRoot, video, nVariants, envs) == Ok(p)
    ensures |p| == VariantCount(nVariants)
    ensures forall i :: 0 <= i < |p| ==> EntryFor(framesRoot, outRoot, video, i + 1, envs(video.name, i + 1), p[i])
  {
    forall i | 0 <= i < |p| ensures EntryFor(framesRoot, outRoot, video, i + 1, envs(video.name, i + 1), p[i]) {
      VariantAt(framesRoot, outRoot, video, nVariants, envs, p, i);
    }
  }

  lemma VariantAt(framesRoot: string, outRoot: string, video: Entry<Option<FrameFolder>>,
                  nVariants: int, envs: (string, int) -> VariantEnv, p: seq<SummaryEntry>, i: nat)
    requires video.content.Some? && ValidEnvs(envs)
    requires VideoVariants(framesRoot, outRoot, video, nVariants, envs) == Ok(p) && i < |p|
    ensures ValidDraws(envs(video.name, i + 1).draws) && DrawPairs(envs(video.name, i + 1).cropDraw)
    ensures EntryFor(framesRoot, outRoot, video, i + 1, envs(video.name, i + 1), p[i])
  {
    var rs := VariantResults(framesRoot, outRoot, video, nVariants, envs);
    CollectAt(rs, p, i);
    VariantResultAt(framesRoot, outRoot, video, nVariants, envs, i);
    EntryOfResult(framesRoot, outRoot, video, i + 1, envs(video.name, i + 1), p[i]);
  }

  lemma EntryOfResult(framesRoot: string, outRoot: string, video: Entry<Option<FrameFolder>>,
                      vidx: int, env: VariantEnv, p: SummaryEntry)
    requires video.content.Some?
    requires ValidDraws(env.draws) && DrawPairs(env.cropDraw)
    requires VariantEntry(framesRoot, outRoot, video, vidx, env) == Ok(p)
    ensures EntryFor(framesRoot, outRoot, video, vidx, env, p)
  {
  }

  /** Entry `p` is variant `vidx` of `video`, made from the draws `env`. */
  predicate EntryFor(framesRoot: string, outRoot: string, video: Entry<Option<FrameFolder>>,
                     vidx: int, env: VariantEnv, p: SummaryEntry)
    requires video.content.Some?
    requires ValidDraws(env.draws) && DrawPairs(env.cropDraw)
  {
    var spec := BuildSpec(env.draws);
    p.video == video.name &&
    p.variant == VariantName(video.name, vidx, spec) &&
    CreateVariantSpec(Paths.Join(framesRoot, video.name), Paths.Join(outRoot, p.variant),
                      video.content.value, spec, env.encodeFails, env.cropDraw).0 == Ok(p.metadata)
  }

  lemma {:induction false} FlattenLength<T>(ss: seq<seq<T>>, m: nat)
    requires forall i :: 0 <= i < |ss| ==> |ss[i]| == m
    ensures |Flatten(ss)| == |ss| * m
  {
    if ss != [] {
      FlattenLength(ss[..|ss| - 1], m);
      assert (|ss| - 1) * m + m == |ss| * m;
    }
  }

  /** The summary holds `n_variants` entries (none when it is not positive)
      for each video folder. */
  lemma SummaryLength(framesRoot: string, outRoot: string, root: FramesRoot, nVariants: int,
                      envs: (string, int) -> VariantEnv, s: seq<SummaryEntry>)
    requires ValidEnvs(envs)
    requires GenerateSpec(framesRoot, outRoot, root, nVariants, envs) == Ok(s)
    ensures |s| == |VideoFolders(root)| * VariantCount(nVariants)
  {
    var videos := VideoFolders(root);
    var rs := VideoResults(framesRoot, outRoot, videos, nVariants, envs);
    var parts := Collect(rs).value;
    forall i | 0 <= i < |parts| ensures |parts[i]| == VariantCount(nVariants) {
      assert rs[i] == Ok(parts[i]);
      VideoVariantsShape(framesRoot, outRoot, videos[i], nVariants, envs, parts[i]);
    }
    FlattenLength(parts, VariantCount(nVariants));
  }
}
