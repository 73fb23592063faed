/** scripts/auto_annotate.py: a heuristic annotator that scores each frame
    from the variance of its image embedding. The network, its weights and
    the preprocessing are not modelled: a frame file is seen through the
    variance `torch.var` returns for its embedding. */
module AutoAnnotate {
  import opened Wrappers
  import opened Numerics
  import opened Listing
  import opened Annotations
  import Paths

  /** `compute_score`: `max(0.0, min(1.0, 1.0 - variance * 50))`. */
  function ComputeScore(variance: real): (s: real)
    ensures 0.0 <= s <= 1.0
  {
    Clip(1.0 - variance * 50.0, 0.0, 1.0)
  }

  /** The flags decided from the score, before it is rounded. */
  function FlagsFor(score: real): Flags
  {
    Flags(score < 0.5, false, score < 0.6, false)
  }

  const AutoNote: string := "Auto-generated using ResNet-18 heuristic"
  const AutoSource: string := "auto_annotation_resnet18"

  /** A frame file seen through its embedding's variance; nothing when
      `Image.open` cannot read it. */
  type EmbeddingFolder = seq<Entry<Option<real>>>

  /** The annotation of one frame, or the exception `Image.open` raises. */
  function AnnotateFrame(e: Entry<Option<real>>): Result<Annotation>
  {
    if e.content.None? then Err(ImageError)
    else
      var score := ComputeScore(e.content.value);
      Ok(Annotation(e.name, Round3(score), FlagsFor(score), AutoNote))
  }

  function FrameResults(frames: EmbeddingFolder): (rs: seq<Result<Annotation>>)
    ensures |rs| == |frames|
    ensures forall i :: 0 <= i < |rs| ==> rs[i] == AnnotateFrame(frames[i])
  {
    seq(|frames|, i requires 0 <= i < |frames| => AnnotateFrame(frames[i]))
  }

  /** `auto_annotate(video_folder, output_json)`: the document written to
      `output_json`, or the first exception. */
  function AutoAnnotateSpec(videoFolder: string, outputJson: string, listing: EmbeddingFolder)
    : Result<SavedAnnotations>
  {
    var anns :- Collect(FrameResults(JpgEntries(listing)));
    Ok(SavedAnnotations([], outputJson,
       AnnotationFile(Paths.Basename(videoFolder), AutoSource, |anns|, anns)))
  }

  method AutoAnnotateVideo(videoFolder: string, outputJson: string, listing: EmbeddingFolder)
    returns (r: Result<SavedAnnotations>)
    ensures r == AutoAnnotateSpec(videoFolder, outputJson, listing)
  {
    var frames := JpgEntries(listing);
    var anns := AnnotateFrames(frames);
    if anns.Err? {
      return Err(anns.error);
    }
    var result := AnnotationFile(Paths.Basename(videoFolder), AutoSource, |anns.value|, anns.value);
    return Ok(SavedAnnotations([], outputJson, result));
  }

  /** The loop appending one annotation per frame. */
  method AnnotateFrames(frames: EmbeddingFolder) returns (r: Result<seq<Annotation>>)
    ensures r == Collect(FrameResults(frames))
  {
    ghost var rs := FrameResults(frames);
    var annotations: seq<Annotation> := [];
    for i := 0 to |frames|
      invariant Collect(rs[..i]) == Ok(annotations)
    {
      CollectStep(rs, i);
      var variance := frames[i].content;
      if variance.None? {
        CollectStopsAtError(rs, i + 1);
        return Err(ImageError);
      }
      var score := ComputeScore(variance.value);
      var flags := Flags(score < 0.5, false, score < 0.6, false);
      annotations := annotations + [Annotation(frames[i].name, Round3(score), flags, AutoNote)];
    }
    assert rs[..|frames|] == rs;
    return Ok(annotations);
  }
}

module AutoAnnotateProperties {
  import opened Wrappers
  import opened Numerics
  import opened Listing
  import opened Annotations
  import opened AutoAnnotate

  /** The score is 1 for a constant embedding, falls linearly with the
      variance, and is 0 from variance 0.02 on. */
  lemma ScoreShape(v: real)
    ensures v <= 0.0 ==> ComputeScore(v) == 1.0
    ensures 0.0 <= v <= 0.02 ==> ComputeScore(v) == 1.0 - 50.0 * v
    ensures v >= 0.02 ==> ComputeScore(v) == 0.0
  {
  }

  lemma ScoreMonotone(v: real, w: real)
    requires v <= w
    ensures ComputeScore(w) <= ComputeScore(v)
  {
    ClipMonotone(1.0 - w * 50.0, 1.0 - v * 50.0, 0.0, 1.0);
  }

  /** The flags as thresholds on the variance: `manipulated` above 0.01,
      `context_loss` above 0.008; the first implies the second, and the
      other two flags are never set. */
  lemma FlagRules(v: real)
    ensures var f := FlagsFor(ComputeScore(v));
      (f.manipulated <==> v > 0.01) && (f.contextLoss <==> v > 0.008) &&
      (f.manipulated ==> f.contextLoss) && !f.cropped && !f.biasDetected
  {
  }

  /** The flags are decided on the unrounded score, so a frame may be
      flagged as manipulated while its stored score reads 0.5. */
  lemma RoundingHidesFlag()
    ensures AnnotateFrame(Entry("f.jpg", Some(0.010008))) ==
      Ok(Annotation("f.jpg", 0.5, Flags(true, false, true, false), AutoNote))
  {
    var score := ComputeScore(0.010008);
    assert score == 0.4996;
    assert (score * 1000.0).Floor == 499;
    assert RoundHalfEven(score * 1000.0) == 500;
  }

  /** A run fails exactly when some `.jpg` frame cannot be opened. */
  lemma AnnotateFailsIff(videoFolder: string, outputJson: string, listing: EmbeddingFolder)
    ensures var frames := JpgEntries(listing);
      AutoAnnotateSpec(videoFolder, outputJson, listing).Err? <==>
        exists i :: 0 <= i < |frames| && frames[i].content.None?
  {
    var frames := JpgEntries(listing);
    assert AutoAnnotateSpec(videoFolder, outputJson, listing).Err? == Collect(FrameResults(frames)).Err?;
    FrameResultsFail(frames);
  }

  lemma FrameResultsFail(frames: EmbeddingFolder)
    ensures Collect(FrameResults(frames)).Err? <==> exists i :: 0 <= i < |frames| && frames[i].content.None?
  {
    var rs := FrameResults(frames);
    assert forall i :: 0 <= i < |frames| ==> (rs[i].Err? <==> frames[i].content.None?);
  }

  /** The i-th annotation of a run that succeeds describes the i-th frame. */
  lemma AnnotationAt(frames: EmbeddingFolder, anns: seq<Annotation>, i: nat)
    requires Collect(FrameResults(frames)) == Ok(anns) && i < |frames|
    ensures i < |anns| && frames[i].content.Some?
    ensures anns[i].frameId == frames[i].name
    ensures 0.0 <= anns[i].trustworthinessScore <= 1.0
    ensures anns[i].ethicalFlags == FlagsFor(ComputeScore(frames[i].content.value))
  {
    var rs := FrameResults(frames);
    CollectAt(rs, anns, i);
    assert rs[i] == AnnotateFrame(frames[i]);
    Round3InRange(ComputeScore(frames[i].content.value), 0, 1000);
  }

  /** A run that succeeds annotates every `.jpg` frame in sorted order, with
      a stored score in [0, 1], counts them, and creates no directory. */
  lemma AnnotationsFollowFrames(videoFolder: string, outputJson: string, listing: EmbeddingFolder)
    ensures var frames := JpgEntries(listing); var r := AutoAnnotateSpec(videoFolder, outputJson, listing);
      r.Ok? ==>
        r.value.path == outputJson && r.value.madeDirs == [] &&
        r.value.file.totalFrames == |r.value.file.annotations| == |frames| &&
        forall i :: 0 <= i < |frames| ==>
          var a := r.value.file.annotations[i];
          a.frameId == frames[i].name && frames[i].content.Some? &&
          0.0 <= a.trustworthinessScore <= 1.0 &&
          a.ethicalFlags == FlagsFor(ComputeScore(frames[i].content.value))
  {
    var frames := JpgEntries(listing);
    var c := Collect(FrameResults(frames));
    if c.Ok? {
      forall i | 0 <= i < |frames|
        ensures i < |c.value| && frames[i].content.Some? && c.value[i].frameId == frames[i].name &&
          0.0 <= c.value[i].trustworthinessScore <= 1.0 &&
          c.value[i].ethicalFlags == FlagsFor(ComputeScore(frames[i].content.value))
      {
        AnnotationAt(frames, c.value, i);
      }
    }
  }
}
