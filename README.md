# Video trustworthiness scoring: a Dafny model

This project models the deterministic core of a video-trustworthiness toolkit
written in Python. The core has two parts.

The first is the scoring pipeline under `src/vdt_scoring`:

- the strided, capped frame sampler (`read_frames`);
- the three per-frame signals (edge energy, blur, motion inconsistency);
- the calibrator and the textual explainer;
- the orchestrator `infer_video`, which scores every sampled frame against
  the one sampled before it, gates the heat maps and aggregates a summary;
- the per-group false-positive-rate table used as a fairness metric.

The second is the logic of the data-preparation scripts:

- frame extraction and the dataset index CSV;
- the frame-skip and crop tamper filters;
- the randomised tamper-variant generator (parameter sampling, the
  CRF-to-JPEG-quality map, the mode rule, the crop window, the per-variant
  frame accounting and the summary);
- the manual and automatic annotators;
- the balanced train/val/test dataset merge;
- the synthetic test-clip generator.

Each Python file is one Dafny module. The properties of the larger ones sit in
a companion `…Properties` module; those of `Calibration`, `Explain` and
`Heuristics` are lemmas in the module itself. Shared modules hold the Python primitives the code
relies on:

- `Wrappers`: `Option`, `Result`, the exceptions raised, and the
  append-until-the-first-exception loop `Collect`.
- `Numerics`: `int()` truncation, `round` half to even, `//`, `%`, `np.clip`
  and `np.mean`.
- `Strings`: `lower`, `strip`, `in`, `join`, `str(n)`, zero padding.
- `Paths`: `os.path` and `pathlib`.
- `Listing`: directory listings, filtered and `sorted`.
- `Pictures`: images known by their size and how they were made.
- `RandomDraws`: the `random` calls as functions of a draw in [0, 1).

Loops in the source are Dafny methods with loop invariants. Each method is
proved equal to a specification function, and the properties are lemmas
about that function. The video decoder is a `Capture` class whose `Read`
advances a position. The list that `random.shuffle` permutes in place is the
`MergeDataset.ItemList` class.

Abstractions:

- Image-library results are inputs of the model: Sobel magnitude mean,
  Laplacian variance, grayscale pixels, `torch.var` of an embedding, and
  whether `imread` decodes.
- The random generator's output is a parameter. Each draw a call consumes is
  passed in, and a `(n, k) -> set` sampler, or the permutation a shuffle
  produces, is constrained to what the library guarantees.
- The operator's key presses are the sequence of lines `input()` returns.
- Floats are exact reals.

Quirks of the code are modelled as written:

- `apply_crop_and_resize` returns the bare image copy when the window is
  empty, and its caller unpacks two values from it. A two-row image then
  unpacks into its rows and the metadata's `json.dump` fails on the row.
  Any other height raises `ValueError` (`TamperVariants.ApplyCrop`).
- The docstring of `simulate_frame_skipping` says 20%, but the default
  ratio is 0.4 (`FrameSkipProperties.SkipCountExamples`).
- `extract_frames` creates the output directory before it finds that the
  video does not open (`ExtractFramesProperties.ExtractCount`).
- The automatic annotator computes its flags from the unrounded score
  (`AutoAnnotateProperties.RoundingHidesFlag`).
- A directory named like an image is collected by the merge and its copy
  fails (`MergeDatasetProperties.DirectoryNamedLikeImage`).
- Slugs can collide (`MergeDatasetProperties.SlugCollision`).

## Model

| member | source | states |
|---|---|---|
| Numerics.Clip | src/vdt_scoring/scoring/heuristics.py:10 | `np.clip(x, lo, hi)` lies in [lo, hi], is the identity inside it and saturates at either end |
| Numerics.Clip01 | src/vdt_scoring/scoring/heuristics.py:26 | the clip into [0, 1] lands in [0, 1] and keeps values already there |
| Numerics.Trunc | scripts/extract_frames.py:20 | Python's `int(x)` truncates toward zero: non-negative inputs give the floor, negative inputs the ceiling |
| Numerics.RoundHalfEven | scripts/randomized_tamper_variants.py:54 | `round(x)` is within 1/2 of x, and on a tie it is the even neighbour |
| Numerics.RoundHalfEvenMonotone | scripts/randomized_tamper_variants.py:54 | `round` is monotone, ties included |
| Numerics.Round3 | scripts/auto_annotate.py:57 | `round(x, 3)` moves x by at most 0.0005 |
| Numerics.Round3InRange | scripts/randomized_tamper_variants.py:34-36 | rounding to three decimals keeps a value inside any range whose bounds have three decimals |
| Numerics.FloorDiv | src/vdt_scoring/pipeline/infer.py:27 | `a // b` is the floor of the quotient for either sign of b |
| Numerics.PyMod | src/vdt_scoring/pipeline/infer.py:27 | `a % b` completes floor division and takes the divisor's sign |
| Numerics.PyModZeroIff | src/vdt_scoring/utils/video_io.py:16 | Python's `a % b == 0` and the Euclidean remainder test agree for every sign |
| Numerics.MeanBounds | src/vdt_scoring/pipeline/infer.py:40 | the mean of values in [lo, hi] lies in [lo, hi] |
| RandomDraws.Uniform | scripts/randomized_tamper_variants.py:34 | `random.uniform(a, b)` lies in [a, b] |
| RandomDraws.UniformCovers | scripts/randomized_tamper_variants.py:36 | every value of [a, b) is produced by some draw |
| RandomDraws.RandInt | scripts/tampering_crop.py:25-26 | `random.randint(a, b)` lies in [a, b] |
| RandomDraws.RandIntCovers | scripts/tampering_crop.py:25-26 | every integer of [a, b] is produced by some draw |
| Strings.Lower | scripts/annotate_frames.py:23 | `lower()` keeps the length and maps each character independently, ASCII capitals to small letters |
| Strings.Strip | scripts/annotate_frames.py:23 | `strip()` returns a slice of its input with only white space removed at either end and none left at its edges |
| Strings.Contains | scripts/randomized_tamper_variants.py:190-194 | `sub in s` holds exactly when sub occurs in s at some position |
| Strings.JoinEnds | scripts/merge_dataset_for_training.py:30 | `"__".join(parts)` starts with the first part and ends with the last |
| Strings.JoinLength | scripts/merge_dataset_for_training.py:30 | a join is as long as its parts plus one separator between each two neighbours |
| Strings.DecimalDigits | scripts/merge_dataset_for_training.py:79 | `str(n)` is a non-empty digit string without a leading zero unless n is 0 |
| Strings.ZeroPad | scripts/extract_frames.py:28 | `f"{n:05d}"` is all digits, at least the width long, and ends with the numeral of n |
| Strings.ParseDecimalDigits | scripts/merge_dataset_for_training.py:79 | the label written by `str(label)` reads back as the label |
| Strings.ParseZeroPad | scripts/extract_frames.py:28 | a zero-padded numeral still denotes its number |
| Strings.ZeroPadInjective | src/vdt_scoring/explain/visual.py:14 | distinct numbers give distinct zero-padded numerals |
| Paths.Join | src/vdt_scoring/pipeline/infer.py:28 | `os.path.join(a, b)`: b itself when absolute, otherwise a, one separator and b; the result always ends with b |
| Paths.Basename | scripts/annotate_frames.py:47 | `os.path.basename(p)` is a separator-free suffix of p |
| Paths.Stem | scripts/merge_dataset_for_training.py:75 | a name is its `stem` followed by its `suffix` |
| Paths.SplitExtRoot | scripts/extract_frames.py:50 | `os.path.splitext(name)[0]` is a prefix of the name |
| Paths.WithSuffixSuffix | scripts/merge_dataset_for_training.py:73 | after `with_suffix(".jpg")` a non-empty name keeps its stem and has the suffix `.jpg` |
| Paths.Dirname | scripts/annotate_frames.py:53 | `os.path.dirname(p)` is empty exactly when p has no separator |
| Listing.SortByName | scripts/tampering_crop.py:14 | `sorted` returns a permutation of its input ordered by code point |
| Listing.SortedSelection | scripts/randomized_tamper_variants.py:94 | a sorted comprehension holds exactly the entries passing the test, with their multiplicities, in name order |
| Listing.JpgEntries | scripts/tampering_frame_skip.py:14 | the frames considered are exactly the entries whose name ends in `.jpg` (case-sensitive), sorted |
| Pictures.SliceBound | scripts/tampering_crop.py:27 | a slice bound is counted from the end when negative and clamped into [0, n]; bounds already in range are kept |
| Pictures.SliceSpan | scripts/tampering_crop.py:27 | a step-1 slice selects a span inside the axis, and exactly [start, stop) when 0 <= start <= stop <= n |
| Pictures.Slice | scripts/tampering_crop.py:27 | a 2-D slice of an image is no larger than the image |
| Pictures.Kept | scripts/tampering_frame_skip.py:18-24 | the indices of kept frames lie below the frame count |
| Pictures.KeptFacts | scripts/tampering_frame_skip.py:18-24 | the kept indices increase strictly and are exactly the decodable, non-skipped ones |
| Calibration.Calibrate | src/vdt_scoring/scoring/calibration.py:1-4 | the result lies in [0, 1], is the identity on [0, 1], and is 0 below and 1 above |
| Calibration.CalibrateIdempotent | src/vdt_scoring/scoring/calibration.py:4 | calibrating twice equals calibrating once |
| Calibration.CalibrateMonotone | src/vdt_scoring/scoring/calibration.py:4 | calibration is non-decreasing |
| Calibration.CalibrateExamples | src/vdt_scoring/scoring/calibration.py:4 | -5 maps to 0, 5 to 1 and 0.42 to itself |
| Explain.TextualReasons | src/vdt_scoring/explain/text.py:3-13 | one to three reasons; blur iff blur > 0.6, temporal iff motion > 0.5, low edge iff edge < 0.1; the fallback iff none fires, and then alone; rule-table order |
| Explain.ReasonsDistinct | src/vdt_scoring/explain/text.py:5-10 | no reason appears twice |
| Explain.ReasonsExamples | tests/test_text.py:4-6 | (0.05, 0.7, 0.8) gives the blur, temporal and low-edge reasons; calm signals give only the fallback |
| Heuristics.EdgeEnergy | src/vdt_scoring/scoring/heuristics.py:4-10 | the edge energy lies in [0, 1] |
| Heuristics.EdgeEnergyMonotone | src/vdt_scoring/scoring/heuristics.py:10 | the edge energy is non-decreasing in the mean gradient magnitude |
| Heuristics.BlurScore | src/vdt_scoring/scoring/heuristics.py:12-17 | the blur score lies in [0, 1], is 1 for variance <= 0 and 0 for variance >= 1000 |
| Heuristics.BlurScoreAntitone | src/vdt_scoring/scoring/heuristics.py:17 | the blur score is non-increasing in the Laplacian variance |
| Heuristics.MotionInconsistency | src/vdt_scoring/scoring/heuristics.py:19-27 | the motion signal lies in [0, 1] and is 0 without a previous frame |
| Heuristics.MotionOfIdenticalFrames | src/vdt_scoring/scoring/heuristics.py:23-26 | two identical frames give motion 0 |
| Infer.RawScoreEdgeAntitone | src/vdt_scoring/pipeline/infer.py:23 | with a non-negative edge weight, more edge energy never raises the raw score |
| Infer.GlobalScore | src/vdt_scoring/pipeline/infer.py:39-40 | the global score lies in [0, 1] and is 0 without scores |
| Infer.Aggregate | src/vdt_scoring/pipeline/infer.py:42-50 | the summary keeps the frame records, counts them in `frames_evaluated`, has no flagged segments and a global score in [0, 1] |
| Infer.ScoreFrames | src/vdt_scoring/pipeline/infer.py:19-36 | the loop threading the previous frame produces the k-th record from the k-th and (k-1)-th samples, or the ZeroDivisionError of `save_every_n == 0` |
| Infer.InferVideo | src/vdt_scoring/pipeline/infer.py:14-54 | `infer_video` returns the aggregated records of the sampled frames, or the sampler's or the heat-map gate's exception |
| InferProperties.InferShape | src/vdt_scoring/pipeline/infer.py:19-50 | one record per sampled pair in sampler order with its index, each score in [0, 1] with one to three reasons, and the global score equal to the mean score (0 for none) |
| InferProperties.GlobalScoreIsMean | src/vdt_scoring/pipeline/infer.py:40 | for scores in [0, 1] the clip of the mean is the mean |
| InferProperties.GlobalScoreExample | src/vdt_scoring/pipeline/infer.py:39-40 | scores 0.2, 0.4, 0.6 give 0.4; no scores give 0 |
| InferProperties.InferErrors | src/vdt_scoring/pipeline/infer.py:19-28 | FileNotFoundError for an unopenable video, ZeroDivisionError for `every_nth == 0` or a heat-map gate with `save_every_n == 0` once a frame is read, and an empty summary when nothing is sampled |
| InferProperties.SampledIndex | src/vdt_scoring/utils/video_io.py:12-19 | the k-th sampled index is k times the absolute value of `every_nth` |
| InferProperties.HeatmapEveryNthSample | src/vdt_scoring/pipeline/infer.py:26-28 | the k-th sampled frame has a heat map exactly when heat maps are on and k is a multiple of `save_every_n`, under its frame index |
| InferProperties.FirstFrameNoMotion | src/vdt_scoring/pipeline/infer.py:17-24 | the first record is scored with motion 0 |
| InferProperties.HeatmapPathInjective | src/vdt_scoring/explain/visual.py:14 | distinct frame indices write distinct heat-map files |
| VideoIo.Capture.constructor | src/vdt_scoring/utils/video_io.py:6 | a fresh capture starts at frame 0, not released |
| VideoIo.Capture.Read | src/vdt_scoring/utils/video_io.py:13 | `read()` hands out the next frame and advances, or reports failure past the end, on an unopened or released capture |
| VideoIo.Capture.Release | src/vdt_scoring/utils/video_io.py:20 | the capture is released |
| VideoIo.ReadFrames | src/vdt_scoring/utils/video_io.py:5-20 | the drained generator yields the strided, capped pairs or the FileNotFoundError / ZeroDivisionError, calls `read()` exactly as often as specified, and leaves its freshly opened decoder released exactly when it ran to the end |
| VideoIo.ReadFramesEnd | src/vdt_scoring/utils/video_io.py:12-19 | whether the loop stops on a failed read or on the cap, it has yielded min(ceil(n / stride), max_frames) pairs and made the specified number of reads |
| VideoIoProperties.ReadFramesShape | src/vdt_scoring/utils/video_io.py:9-19 | every pair is (i, frames[i]) with i a multiple of `every_nth`; indices strictly increase; at most `max_frames` pairs, none when it is not positive |
| VideoIoProperties.UnopenableFails | src/vdt_scoring/utils/video_io.py:7-8 | an unopenable source raises FileNotFoundError before any read |
| VideoIoProperties.HundredFramesEveryTenthCapThree | src/vdt_scoring/utils/video_io.py:12-19 | 100 frames, `every_nth` 10, cap 3 yield indices 0, 10, 20 after 21 reads |
| VideoIoProperties.ReadFramesLength | src/vdt_scoring/utils/video_io.py:12-19 | the sample holds min(ceil(n / abs(every_nth)), max_frames) pairs |
| Fairness.Positions | src/vdt_scoring/ethics/fairness_metrics.py:7 | every listed position holds the group |
| Fairness.PositionsComplete | src/vdt_scoring/ethics/fairness_metrics.py:7 | every position holding the group is listed |
| Fairness.PositionsAscending | src/vdt_scoring/ethics/fairness_metrics.py:7 | positions are listed in ascending order |
| Fairness.PositionsNonEmpty | src/vdt_scoring/ethics/fairness_metrics.py:8-9 | the `continue` never fires: each distinct label has a position |
| Fairness.SubgroupFalsePositiveRates | src/vdt_scoring/ethics/fairness_metrics.py:4-16 | the loop over the distinct labels builds exactly the specified table, or raises IndexError |
| FairnessProperties.RateBounds | src/vdt_scoring/ethics/fairness_metrics.py:13-15 | a rate lies in [0, 1]; it is fp / (fp + tn) when there is a negative and 0 otherwise |
| FairnessProperties.CountIsMultiplicity | src/vdt_scoring/ethics/fairness_metrics.py:13-14 | fp and tn count the (truth, prediction) pairs exactly |
| FairnessProperties.RatesShape | src/vdt_scoring/ethics/fairness_metrics.py:6-15 | the table's keys are exactly the distinct labels, each rate in [0, 1]; IndexError exactly when `groups` is longer than either label list |
| FairnessProperties.NoNegativesRateZero | src/vdt_scoring/ethics/fairness_metrics.py:15 | a group without a true negative class has rate 0 |
| FairnessProperties.RateIsLocal | src/vdt_scoring/ethics/fairness_metrics.py:7-11 | a group's rate depends only on the positions labelled with it |
| FairnessProperties.RatesExample | src/vdt_scoring/ethics/fairness_metrics.py:4-16 | a four-item example gives rates 0.5 and 1.0 for its two groups |
| FairnessProperties.ShortLabelsExample | src/vdt_scoring/ethics/fairness_metrics.py:10-11 | label lists shorter than `groups` raise IndexError |
| TamperVariants.DrawSeverity | scripts/randomized_tamper_variants.py:181 | the variant is subtle exactly when the draw is below 0.7 |
| TamperVariants.SampleCropRatio | scripts/randomized_tamper_variants.py:32-36 | subtle crop ratios lie in [0.10, 0.25], severe ones in [0.30, 0.65], after rounding |
| TamperVariants.SampleSkipInterval | scripts/randomized_tamper_variants.py:38-43 | subtle skip intervals lie in [8, 15], severe ones in [2, 7] |
| TamperVariants.SampleCrf | scripts/randomized_tamper_variants.py:45-46 | the CRF lies in [20, 40] |
| TamperVariants.CrfToJpegQuality | scripts/randomized_tamper_variants.py:48-56 | the quality lies in [10, 95] and equals the rounded line wherever that is in range |
| TamperVariants.Bisect | scripts/randomized_tamper_variants.py:187 | the weighted choice picks the first cumulative weight above the scaled draw |
| TamperVariants.SkippedIndices | scripts/randomized_tamper_variants.py:98-109 | the skip loop builds {i < n : i % si == 0} for a non-zero interval, nothing otherwise |
| TamperVariants.ProcessFrames | scripts/randomized_tamper_variants.py:116-149 | the per-frame loop reaches the specified state, or stops with the crop's exception |
| TamperVariants.CreateVariant | scripts/randomized_tamper_variants.py:84-168 | `create_variant_from_frame_folder` returns `no_frames`, the metadata, or the exception, and writes the specified frames |
| TamperVariants.MakeVideoVariants | scripts/randomized_tamper_variants.py:179-206 | the inner loop collects one summary entry per variant index, or stops at the first exception |
| TamperVariants.GenerateVariants | scripts/randomized_tamper_variants.py:171-213 | the summary is the concatenation of every video folder's entries, in sorted folder order |
| TamperVariantsProperties.CrfQualityExamples | scripts/randomized_tamper_variants.py:53-55 | CRF 20 gives 95, 40 gives 30, 22 gives 88 (tie to even), 30 gives 62, and out-of-range CRFs clamp |
| TamperVariantsProperties.CrfQualityMonotone | scripts/randomized_tamper_variants.py:54-55 | quality is non-increasing in CRF |
| TamperVariantsProperties.SampledQualityRange | scripts/randomized_tamper_variants.py:45-56 | every sampled CRF gives a quality in [30, 95] |
| TamperVariantsProperties.CropRatioCovers | scripts/randomized_tamper_variants.py:32-36 | every three-decimal ratio of each severity's range can be sampled |
| TamperVariantsProperties.ModeCumulativeWeights | scripts/randomized_tamper_variants.py:187 | the running totals of the weights 2, 2, 1, 2, 2 are 2, 4, 5, 7, 9 |
| TamperVariantsProperties.ModeIntervals | scripts/randomized_tamper_variants.py:185-187 | each mode is chosen exactly on its interval of the scaled draw, so with probability weight / 9 |
| TamperVariantsProperties.ModeNameContains | scripts/randomized_tamper_variants.py:190-194 | the substring tests on a mode's name pick out the crop, skip and compress operations it names |
| TamperVariantsProperties.SpecKeys | scripts/randomized_tamper_variants.py:189-196 | the spec has `crop_ratio` iff "crop" is in the mode, `skip_interval` iff "skip", `crf` iff "compress" |
| TamperVariantsProperties.SpecRanges | scripts/randomized_tamper_variants.py:181-196 | every parameter of a spec lies in its severity's range, and its JPEG quality in [30, 95] |
| TamperVariantsProperties.CropExtentFits | scripts/randomized_tamper_variants.py:62-63 | with a non-negative ratio the window side fits the image side |
| TamperVariantsProperties.CropWindow | scripts/randomized_tamper_variants.py:59-72 | a non-empty window is a box inside the image, resized back to the image's size; an empty one succeeds only for a two-row image |
| TamperVariantsProperties.SampledCropNonEmpty | scripts/randomized_tamper_variants.py:62-64 | sampled ratios never empty the window of an image at least 3 pixels each way |
| TamperVariantsProperties.OneRowCropFails | scripts/randomized_tamper_variants.py:64-65 | a one-row image with a positive ratio makes the caller's unpacking raise ValueError |
| TamperVariantsProperties.TwoRowCropUnpacksRows | scripts/randomized_tamper_variants.py:64-65 | a two-row image with a ratio above 1/2 unpacks into its two pixel rows |
| TamperVariantsProperties.VariantAccounting | scripts/randomized_tamper_variants.py:116-163 | output + skipped + failed frames equal input frames; one file per output frame, each with the spec's JPEG quality |
| TamperVariantsProperties.NoFramesWritesNothing | scripts/randomized_tamper_variants.py:94-96 | a folder without frame files gives `no_frames` and writes nothing |
| TamperVariantsProperties.SkipCount | scripts/randomized_tamper_variants.py:103-109 | interval si skips ceil(n / si) frames, frame 0 among them |
| TamperVariantsProperties.VideoVariantsShape | scripts/randomized_tamper_variants.py:179-206 | a video gets one entry per variant index, each naming the video, the variant folder from its own draws, and that variant's metadata |
| TamperVariantsProperties.SummaryLength | scripts/randomized_tamper_variants.py:175-206 | the summary holds `n_variants` entries per video folder |
| MergeDataset.FindImages | scripts/merge_dataset_for_training.py:14-17 | the images found are exactly the paths whose lower-cased suffix is `.jpg`, `.jpeg` or `.png` |
| MergeDataset.CollectFrames | scripts/merge_dataset_for_training.py:19-32 | one item per image, in walk order, with the given label and the parts joined by `__` |
| MergeDataset.SplitSizes | scripts/merge_dataset_for_training.py:57-58 | the train and val sizes never exceed the total |
| MergeDataset.BalancedSplit | scripts/merge_dataset_for_training.py:43-62 | RuntimeError with both lists untouched when a class is empty; otherwise both lists are left shuffled in place and the result partitions the shuffled heads |
| MergeDataset.CopyAndWrite | scripts/merge_dataset_for_training.py:64-79 | the copies made for a split, one per item, or the first copy's exception |
| MergeDatasetProperties.PartitionCovers | scripts/merge_dataset_for_training.py:56-61 | train, val and test concatenate to the combined list, with int(0.7 total), int(0.2 total) and the rest |
| MergeDatasetProperties.SplitSizesExamples | scripts/merge_dataset_for_training.py:57-58 | 10 items split 7 / 2, 2 split 1 / 0, 30 split 21 / 6 |
| MergeDatasetProperties.BalancedClasses | scripts/merge_dataset_for_training.py:45-54 | the combined list holds n = min(auth, tamp) items of each class, 2n in all |
| MergeDatasetProperties.SlugKeepsSuffix | scripts/merge_dataset_for_training.py:28-31 | a slug has the suffix of its last part |
| MergeDatasetProperties.CollectedNameKept | scripts/merge_dataset_for_training.py:70-73 | a collected image keeps its slug as destination name |
| MergeDatasetProperties.ImageNameIsImage | scripts/merge_dataset_for_training.py:70-73 | every destination name has an image suffix |
| MergeDatasetProperties.CopyNaming | scripts/merge_dataset_for_training.py:64-79 | a collected file goes to `images/<slug>` and its label to `labels/<stem>.txt`, holding the label as a numeral that reads back |
| MergeDatasetProperties.SlugCollision | scripts/merge_dataset_for_training.py:28-30 | two different relative paths can share a slug |
| MergeDatasetProperties.DirectoryNamedLikeImage | scripts/merge_dataset_for_training.py:14-17 | a directory named like an image is collected, and copying it fails |
| ExtractFrames.SourceFps | scripts/extract_frames.py:19 | the source rate is never 0: a truncated rate of 0 falls back to 30 |
| ExtractFrames.Step | scripts/extract_frames.py:20 | the step is at least 1 |
| ExtractFrames.Extract | scripts/extract_frames.py:7-33 | `extract_frames` makes the directory, then saves every step-th frame under consecutive names, returns 0 for an unopenable video, or raises ZeroDivisionError for fps 0; the decoder is released, after reading every frame, exactly when the video opens and fps is non-zero |
| ExtractFrames.ProcessDir | scripts/extract_frames.py:47-53 | a directory's files give the specified rows, or the first exception |
| ExtractFrames.ProcessDataset | scripts/extract_frames.py:35-53 | the CSV is the header followed by the rows of every directory of the walk |
| ExtractFramesProperties.StepExamples | scripts/extract_frames.py:19-20 | 29.97 fps truncates to 29, below 1 fps falls back to 30, and steps never drop below 1 |
| ExtractFramesProperties.SavedCount | scripts/extract_frames.py:22-31 | after count reads, ceil(count / step) frames are saved |
| ExtractFramesProperties.SavedShape | scripts/extract_frames.py:22-31 | the j-th saved file is frame j·step, named `frame_<j>` padded to 5 digits |
| ExtractFramesProperties.SavedFrameAt | scripts/extract_frames.py:27-29 | every frame whose index is a multiple of the step is saved |
| ExtractFramesProperties.FrameFileNameExample | scripts/extract_frames.py:28 | the names are `frame_00000.jpg`, …, `frame_00042.jpg` |
| ExtractFramesProperties.FrameFileNameInjective | scripts/extract_frames.py:28 | distinct counters give distinct names |
| ExtractFramesProperties.SavedPathsDistinct | scripts/extract_frames.py:28-29 | no two saved frames share a file |
| ExtractFramesProperties.ExtractCount | scripts/extract_frames.py:12-33 | the directory is made in every case; 0 for an unopenable video, ZeroDivisionError for fps 0, otherwise ceil(n / step) |
| ExtractFramesProperties.FileRowShape | scripts/extract_frames.py:48-53 | a video file gives one row naming it, its folder and its count; other files give none |
| ExtractFramesProperties.DirRowCount | scripts/extract_frames.py:47-53 | a directory gives one row per video file |
| ExtractFramesProperties.ProcessRowCount | scripts/extract_frames.py:44-53 | the CSV holds the header and one row per video file of the walk |
| ExtractFramesProperties.VideoFileExamples | scripts/extract_frames.py:48 | upper-case extensions are recognised; `.mkv` is not |
| FrameSkip.SimulateFrameSkipping | scripts/tampering_frame_skip.py:6-24 | `simulate_frame_skipping` writes the specified frames, or raises ValueError for a sample size outside [0, n] |
| FrameSkip.WriteKept | scripts/tampering_frame_skip.py:18-24 | the loop writes the decodable, non-skipped frames in order |
| FrameSkipProperties.SkipCountExamples | scripts/tampering_frame_skip.py:6-15 | the default 0.4 drops 4 of 10 frames, not the documented 20%; small negative ratios truncate to 0 |
| FrameSkipProperties.SkipCountInRange | scripts/tampering_frame_skip.py:15-16 | a ratio in [0, 1] gives a valid sample size |
| FrameSkipProperties.OutputsAreKept | scripts/tampering_frame_skip.py:18-24 | the written files are the kept frames in sorted order, under their own names |
| FrameSkipProperties.KeptCount | scripts/tampering_frame_skip.py:18-24 | at most k minus the skipped frames are kept, exactly that many when every frame decodes |
| FrameSkipProperties.SkipOutcome | scripts/tampering_frame_skip.py:14-24 | ValueError iff int(n·ratio) is outside [0, n]; otherwise at most n − int(n·ratio) files, exactly that many when all decode |
| Crop.CropFrame | scripts/tampering_crop.py:22-28 | a cropped frame is a resized picture of the frame's size |
| Crop.SimulateCropping | scripts/tampering_crop.py:6-30 | `simulate_cropping` writes the specified files, or stops at the first exception |
| Crop.CropFrames | scripts/tampering_crop.py:16-30 | the per-frame loop matches the specified run frame by frame |
| CropProperties.ExtentBounds | scripts/tampering_crop.py:22-23 | for a ratio in [0, 1] the window side lies in [0, side] |
| CropProperties.WindowInside | scripts/tampering_crop.py:22-26 | ValueError iff a window side exceeds the frame's; for a ratio in [0, 1] the window is drawn and lies inside the frame |
| CropProperties.WindowCovers | scripts/tampering_crop.py:25-26 | every top-left corner of the allowed range can be drawn |
| CropProperties.CropFrameShape | scripts/tampering_crop.py:22-28 | a non-empty window gives that region resized to the frame's size; an empty one makes the resize raise |
| CropProperties.ZeroRatioFullFrame | scripts/tampering_crop.py:22-27 | ratio 0 gives the full-frame window at (0, 0) |
| CropProperties.NearOneRatioRaises | scripts/tampering_crop.py:27-28 | ratio 0.99 on a 50×80 frame empties the window and the resize raises |
| CropProperties.CropRunShape | scripts/tampering_crop.py:16-30 | without an exception, one file per decodable frame, in order, under its own name, at its size |
| CropProperties.CropSpecShape | scripts/tampering_crop.py:14-30 | the same for `simulate_cropping` over the sorted `.jpg` frames |
| CropProperties.CropRunSucceeds | scripts/tampering_crop.py:16-30 | for a ratio in [0, 1] nothing raises unless some decodable frame's window is empty |
| AutoAnnotate.ComputeScore | scripts/auto_annotate.py:23-29 | the score lies in [0, 1] |
| AutoAnnotate.AutoAnnotateVideo | scripts/auto_annotate.py:31-72 | `auto_annotate` produces the specified document, or the first exception of `Image.open` |
| AutoAnnotate.AnnotateFrames | scripts/auto_annotate.py:38-60 | the loop collects one annotation per frame, or stops at the first unreadable one |
| AutoAnnotateProperties.ScoreShape | scripts/auto_annotate.py:28-29 | the score is 1 at variance <= 0, 1 − 50v up to 0.02, 0 from 0.02 on |
| AutoAnnotateProperties.ScoreMonotone | scripts/auto_annotate.py:29 | the score is non-increasing in the variance |
| AutoAnnotateProperties.FlagRules | scripts/auto_annotate.py:48-53 | `manipulated` iff variance > 0.01, `context_loss` iff > 0.008, the first implies the second, the other flags are never set |
| AutoAnnotateProperties.RoundingHidesFlag | scripts/auto_annotate.py:48-57 | a frame can be flagged manipulated while its stored score reads 0.5 |
| AutoAnnotateProperties.AnnotateFailsIff | scripts/auto_annotate.py:38-40 | a run fails exactly when some `.jpg` frame cannot be opened |
| AutoAnnotateProperties.AnnotationAt | scripts/auto_annotate.py:55-60 | the i-th annotation names the i-th frame, with a stored score in [0, 1] and the flags of its score |
| AutoAnnotateProperties.AnnotationsFollowFrames | scripts/auto_annotate.py:35-67 | a successful run annotates every `.jpg` frame in sorted order and `total_frames` counts them |
| ManualAnnotate.OutputDir | scripts/annotate_frames.py:53 | the corrected directory creation makes nothing exactly when the output path has no separator |
| ManualAnnotate.AnnotateVideo | scripts/annotate_frames.py:6-57 | `annotate_video` (with the corrected directory creation) saves the specified document, or the loop's exception |
| ManualAnnotate.AnnotateFrames | scripts/annotate_frames.py:13-42 | the loop with `break` and `continue` produces the specified annotations, or raises for an unreadable frame or exhausted input |
| ManualAnnotateProperties.DecisionTable | scripts/annotate_frames.py:23-35 | after strip and lower, `a` gives 0.9 with no flag, `t` 0.3 with all flags but bias, `q` quits, anything else is invalid |
| ManualAnnotateProperties.QuitStops | scripts/annotate_frames.py:25-26 | a quit ends the run: later frames are not annotated |
| ManualAnnotateProperties.ManualShape | scripts/annotate_frames.py:13-42 | annotations carry one of the two labels and follow the sorted frame order, at most one per frame |
| ManualAnnotateProperties.AllAuthentic | scripts/annotate_frames.py:27-29 | answering `a` to every frame annotates every frame in order |
| ManualAnnotateProperties.RepliesRunOut | scripts/annotate_frames.py:23 | fewer replies than frames and no quit makes `input()` raise EOFError |
| ManualAnnotateProperties.BareOutputNameFails | scripts/annotate_frames.py:53 | as written, an output path without a directory part loses the annotations to FileNotFoundError; the corrected version saves them and creates nothing |
| ManualAnnotateProperties.ManualSaves | scripts/annotate_frames.py:46-55 | the corrected run saves exactly when the loop completes, with `total_frames` equal to the count, and agrees with the code as written whenever the path has a directory |
| SyntheticVideo.MakeFrames | examples/make_synthetic_video.py:5-29 | the clip has `frames` frames (none for a negative count), frame i drawn at the i-th position and blurred exactly for 40 < i < 60 |
| SyntheticVideoProperties.PosClosedForm | examples/make_synthetic_video.py:15-26 | the square moves 3 pixels a frame modulo 280, and jumps to x = 200 at frame 81 |
| SyntheticVideoProperties.SquareInside | examples/make_synthetic_video.py:11-20 | the square always lies inside the 320 × 240 frame |

## Left out

- File-system effects are not modelled beyond the paths and images each operation writes. This covers `os.makedirs`, `listdir`, `rglob`, `os.walk` order, `shutil.copy2`, `rmtree`, and the JSON and CSV writes. Directory listings are inputs. A write that fails is not modelled, except for the JPEG encoder failures of the variant generator (the `encodeFails` set).
- `infer_video` creates its output directory and writes `results.json`; neither is modelled. Nor is `save_edge_heatmap`'s image processing; only its path is.
- The automatic annotator creates no directory. A missing output directory makes its final `open` fail; that is not modelled.
- The CSV that `process_dataset` has partly written when an extraction raises is not modelled. Only the full row list or the exception is.
- Image processing (`cvtColor`, Sobel, Laplacian, `absdiff`, `resize` interpolation, `GaussianBlur`, JPEG encoding) and the ResNet-18 embedding are not modelled. Their results are inputs. Pixels are not modelled either: pictures are known by their size and provenance, and the synthetic clip by where the square is drawn and whether the frame is blurred.
- Randomness and the seed are abstracted. Each draw is given as a number in [0, 1), a sample as a set, a shuffle as a permutation of its input. The library functions are assumed to map a draw to the documented ranges.
- Floats are exact reals. `int(0.7 * total)`, `round(x, 3)` and the CRF line may round differently in IEEE doubles near a boundary. NaN or infinite frame rates are not modelled.
- The `created_at` timestamp of the variant metadata, the progress bars, `print` output and the matplotlib display are not modelled.
- The command-line entry points are not modelled: `extract_frames.py` lines 55-63, `tampering_crop.py` 32-45, `tampering_frame_skip.py` 26-39, `randomized_tamper_variants.py` 216-227, `auto_annotate.py` 74-81 and `make_synthetic_video.py` 31-32. Each only loops over folders or passes arguments to the modelled functions.
- The `__main__` block of `merge_dataset_for_training.py` (lines 81-98) is not modelled as a unit. Its steps are: collect, clean, split, and copy each split.
- `ensure_clean_dirs` (merge_dataset_for_training.py:34-41) only removes and creates directories, so it is not modelled.
- `load_config` and YAML parsing (config.py:27-39) are not modelled. The dataclass defaults are `Config.DefaultCfg`.
- Crop.Extent: computes `int(h * (1 - crop_ratio))` over exact reals. In IEEE doubles the default ratio 0.3 gives `int(720 * 0.7)` = `int(503.99999999999994)` = 503 rows where the model gives 504; 360 rows give 251 against 252, and 1440 rows 1007 against 1008. The crop window can then differ by a pixel.
- TamperVariants.CropExtent: has the same exact-real computation, so a sampled ratio of 0.300 can give a window one pixel larger than Python's, and that difference reaches the metadata's `crop_box`.
- Infer.InferVideo: requires `UniformFrames`: every decoded frame of the video, sampled or not, shares one non-empty size. `Heuristics.MotionInconsistency` requires the same of the two frames it compares. In the source an empty frame makes `cv2.cvtColor` raise and frames of different sizes make `cv2.absdiff` raise (src/vdt_scoring/scoring/heuristics.py:23-25). The model does not contain those errors.
- Infer.InferVideo: takes the whole sample from `read_frames` before scoring any frame, while the source consumes the generator lazily. The result is the same, but the order of reads and scoring is not modelled. So is the case where scoring raises (`save_every_n == 0` with heat maps on): the source then stops after one read and never reaches `cap.release()`, whereas the model has drained and released the decoder.
- Strings.Lower: lower-cases ASCII letters only; Python's `str.lower` also maps other Unicode capitals.
- TamperVariants.BuildSpec decides `"crop" in mode` and the other tests on the mode value. `TamperVariantsProperties.ModeNameContains` proves these agree with the substring tests on the mode's name.
- TamperVariants.ChooseMode uses the constant `CumWeights`. `TamperVariantsProperties.ModeCumulativeWeights` proves it equals the running totals `random.choices` computes.
- VideoIo.ReadFrames tests `idx % every_nth == 0` with Dafny's Euclidean remainder. `Numerics.PyModZeroIff` proves that zero test agrees with Python's for every sign.
- Crop.Crops precomputes each frame's crop result before the loop writes the files. This is equivalent to the source because each result depends only on its own frame and its own pair of draws.
- Fairness.SubgroupFalsePositiveRates fills the table in an arbitrary order of the distinct labels; the dict's insertion order is not modelled.
- The directory creation inside `save_edge_heatmap` (src/vdt_scoring/explain/visual.py:6) is not modelled; the heat-map gate and the file name are.

## Findings

| source | as written | input that shows it | evidently intended | confidence | as-written member | corrected member |
|---|---|---|---|---|---|---|
| scripts/annotate_frames.py:53 | `os.makedirs(os.path.dirname(output_json), exist_ok=True)` calls `os.makedirs("")` for an output path without a directory part, which raises FileNotFoundError after all replies were given, so the annotations are never saved | `output_json = "labels.json"`, any folder whose frames are all annotated | create the output's directory only when the path has one, and save the file in every case | not executed | ManualAnnotate.ManualSpecAsWritten, ManualAnnotateProperties.BareOutputNameFails | ManualAnnotate.ManualSpec, ManualAnnotateProperties.ManualSaves |
