/** scripts/annotate_frames.py: the manual annotator. Each frame is shown
    and the operator's reply decides its label; the replies are given as
    the sequence of lines `input()` returns. */
module ManualAnnotate {
  import opened Wrappers
  import opened Strings
  import opened Listing
  import opened Pictures
  import opened Annotations
  import Paths

  /** What a reply does. */
  datatype Decision = Quit | Label(score: real, flags: Flags) | Invalid

  const NoFlags: Flags := Flags(false, false, false, false)
  const TamperedFlags: Flags := Flags(true, true, true, false)
  const ManualNote: string := "Manually annotated"
  const ManualSource: string := "manual_annotation"

  /** The decision of a reply: the table applied to
      `input(...).strip().lower()`. */
  function Decide(reply: string): Decision
  {
    DecideKey(Lower(Strip(reply)))
  }

  /** The decision table over a normalised reply. */
  function DecideKey(key: string): Decision
  {
    if key == "q" then Quit
    else if key == "a" then Label(0.9, NoFlags)
    else if key == "t" then Label(0.3, TamperedFlags)
    else Invalid
  }

  /** The decision of every reply. */
  function Decisions(replies: seq<string>): (ds: seq<Decision>)
    ensures |ds| == |replies| && forall i :: 0 <= i < |replies| ==> ds[i] == Decide(replies[i])
  {
    seq(|replies|, i requires 0 <= i < |replies| => Decide(replies[i]))
  }

  /** The loop over the sorted frames, reply by reply: an unreadable frame
      makes `cv2.cvtColor` raise before any reply is read, and running out
      of replies makes `input()` raise EOFError. */
  function ManualRun(frames: FrameFolder, ds: seq<Decision>): Result<seq<Annotation>>
    decreases |frames|
  {
    if frames == [] then Ok([])
    else if frames[0].content.None? then Err(ImageError)
    else if ds == [] then Err(EOFError)
    else match ds[0]
      case Quit => Ok([])
      case Invalid => ManualRun(frames[1..], ds[1..])
      case Label(score, flags) =>
        var rest :- ManualRun(frames[1..], ds[1..]);
        Ok([Annotation(frames[0].name, score, flags, ManualNote)] + rest)
  }

  /** `annotations` followed by what the rest of the loop appends. */
  function Prepend(annotations: seq<Annotation>, r: Result<seq<Annotation>>): Result<seq<Annotation>>
  {
    match r
    case Ok(rest) => Ok(annotations + rest)
    case Err(e) => Err(e)
  }

  /** `os.makedirs(os.path.dirname(output_json), exist_ok=True)` as
      written: for an output path without a directory part the directory
      name is empty, and `os.makedirs("")` raises FileNotFoundError. */
  function OutputDirAsWritten(outputJson: string): Result<seq<string>>
  {
    var d := Paths.Dirname(outputJson);
    if d == "" then Err(FileNotFound) else Ok([d])
  }

  /** The directory creation the function evidently intends: the output
      path's directory when it has one, nothing otherwise. */
  function OutputDir(outputJson: string): (dirs: seq<string>)
    ensures dirs == [] <==> '/' !in outputJson
  {
    var d := Paths.Dirname(outputJson);
    if d == "" then [] else [d]
  }

  /** `annotate_video` exactly as written. */
  function ManualSpecAsWritten(videoFolder: string, outputJson: string, listing: FrameFolder,
                               replies: seq<string>): Result<SavedAnnotations>
  {
    var anns :- ManualRun(JpgEntries(listing), Decisions(replies));
    var dirs :- OutputDirAsWritten(outputJson);
    Ok(SavedAnnotations(dirs, outputJson,
       AnnotationFile(Paths.Basename(videoFolder), ManualSource, |anns|, anns)))
  }

  /** `annotate_video` with the output directory created only when there is
      one. */
  function ManualSpec(videoFolder: string, outputJson: string, listing: FrameFolder,
                      replies: seq<string>): Result<SavedAnnotations>
  {
    var anns :- ManualRun(JpgEntries(listing), Decisions(replies));
    Ok(SavedAnnotations(OutputDir(outputJson), outputJson,
       AnnotationFile(Paths.Basename(videoFolder), ManualSource, |anns|, anns)))
  }

  method AnnotateVideo(videoFolder: string, outputJson: string, listing: FrameFolder, replies: seq<string>)
    returns (r: Result<SavedAnnotations>)
    ensures r == ManualSpec(videoFolder, outputJson, listing, replies)
  {
    var frames := JpgEntries(listing);
    var anns := AnnotateFrames(frames, replies);
    if anns.Err? {
      return Err(anns.error);
    }
    var result := AnnotationFile(Paths.Basename(videoFolder), ManualSource, |anns.value|, anns.value);
    var d := Paths.Dirname(outputJson);
    var dirs := if d == "" then [] else [d];
    return Ok(SavedAnnotations(dirs, outputJson, result));
  }

  /** The loop with its `break` and `continue`. */
  method AnnotateFrames(frames: FrameFolder, replies: seq<string>) returns (r: Result<seq<Annotation>>)
    ensures r == ManualRun(frames, Decisions(replies))
  {
    ghost var ds := Decisions(replies);
    var annotations: seq<Annotation> := [];
    assert frames[0..] == frames && ds[0..] == ds;
    PrependEmpty(ManualRun(frames, ds));
    for i := 0 to |frames|
      invariant i <= |replies|
      invariant ManualRun(frames, ds) == Prepend(annotations, ManualRun(frames[i..], ds[i..]))
    {
      RunStep(frames, ds, i);
      var frame := frames[i].content;
      if frame.None? {
        return Err(ImageError);
      }
      if i == |replies| {
        return Err(EOFError);
      }
      var userInput := Lower(Strip(replies[i]));
      assert ds[i] == DecideKey(userInput);
      var trustScore, flags;
      if userInput == "q" {
        assert ds[i] == Quit;
        assert annotations + [] == annotations;
        r := Ok(annotations);
        return;
      } else if userInput == "a" {
        trustScore, flags := 0.9, NoFlags;
      } else if userInput == "t" {
        trustScore, flags := 0.3, TamperedFlags;
      } else {
        continue;
      }
      var a := Annotation(frames[i].name, trustScore, flags, ManualNote);
      PrependAppend(annotations, a, ManualRun(frames[i + 1..], ds[i + 1..]));
      annotations := annotations + [a];
    }
    assert frames[|frames|..] == [];
    assert annotations + [] == annotations;
    return Ok(annotations);
  }

  /** One pass of the loop, read off the run from frame i on. */
  lemma RunStep(frames: FrameFolder, ds: seq<Decision>, i: nat)
    requires i < |frames| && i <= |ds|
    ensures ManualRun(frames[i..], ds[i..]) ==
      if frames[i].content.None? then Err(ImageError)
      else if i == |ds| then Err(EOFError)
      else match ds[i]
        case Quit => Ok([])
        case Invalid => ManualRun(frames[i + 1..], ds[i + 1..])
        case Label(score, flags) =>
          Prepend([Annotation(frames[i].name, score, flags, ManualNote)], ManualRun(frames[i + 1..], ds[i + 1..]))
  {
    assert frames[i..][1..] == frames[i + 1..];
    assert frames[i..][0] == frames[i];
    if i < |ds| {
      assert ds[i..][1..] == ds[i + 1..];
      assert ds[i..][0] == ds[i];
    } else {
      assert ds[i..] == [];
    }
  }

  lemma PrependEmpty(r: Result<seq<Annotation>>)
    ensures Prepend([], r) == r
  {
    if r.Ok? {
      assert [] + r.value == r.value;
    }
  }

  lemma PrependAppend(annotations: seq<Annotation>, a: Annotation, r: Result<seq<Annotation>>)
    ensures Prepend(annotations, Prepend([a], r)) == Prepend(annotations + [a], r)
  {
    if r.Ok? {
      assert annotations + ([a] + r.value) == (annotations + [a]) + r.value;
    }
  }
}

module ManualAnnotateProperties {
  import opened Wrappers
  import opened Strings
  import opened Listing
  import opened Pictures
  import opened Annotations
  import Paths
  import opened ManualAnnotate

  /** The table: `a` is authentic with no flag, `t` tampered with every flag
      but `bias_detected`, `q` quits, anything else is invalid. */
  lemma DecisionTable(reply: string)
    ensures Decide(reply) in {Quit, Invalid, Label(0.9, NoFlags), Label(0.3, TamperedFlags)}
    ensures Decide(reply) == Quit <==> Lower(Strip(reply)) == "q"
    ensures Decide(reply) == Label(0.9, Flags(false, false, false, false)) <==> Lower(Strip(reply)) == "a"
    ensures Decide(reply) == Label(0.3, Flags(true, true, true, false)) <==> Lower(Strip(reply)) == "t"
  {
  }

  /** A quit reply on a readable frame ends the run there: what follows is
      neither shown nor annotated. */
  lemma {:induction false} QuitStops(frames: FrameFolder, ds: seq<Decision>, i: nat)
    requires i < |frames| && i < |ds|
    requires frames[i].content.Some? && ds[i] == Quit
    ensures ManualRun(frames, ds) == ManualRun(frames[..i], ds)
  {
    if i > 0 {
      assert frames[..i][1..] == frames[1..][..i - 1];
      assert frames[..i][0] == frames[0];
      QuitStops(frames[1..], ds[1..], i - 1);
    }
  }

  /** `a` is a subsequence of `b`. */
  predicate Subsequence(a: seq<string>, b: seq<string>)
    decreases |b|
  {
    a == [] || (b != [] && if a[0] == b[0] then Subsequence(a[1..], b[1..]) else Subsequence(a, b[1..]))
  }

  lemma {:induction false} SubsequenceCons(a: seq<string>, x: string, b: seq<string>)
    requires Subsequence(a, b)
    ensures Subsequence(a, [x] + b)
    decreases |b|, 1
  {
    if a != [] && a[0] == x {
      assert ([x] + b)[1..] == b;
      SubsequenceTail(a, b);
    } else if a != [] {
      assert ([x] + b)[1..] == b;
    }
  }

  lemma {:induction false} SubsequenceTail(a: seq<string>, b: seq<string>)
    requires a != [] && Subsequence(a, b)
    ensures Subsequence(a[1..], b)
    decreases |b|, 0
  {
    if a[0] == b[0] {
      SubsequenceCons(a[1..], b[0], b[1..]);
      assert [b[0]] + b[1..] == b;
    } else {
      SubsequenceTail(a, b[1..]);
      SubsequenceCons(a[1..], b[0], b[1..]);
      assert [b[0]] + b[1..] == b;
    }
  }

  function AnnotatedNames(anns: seq<Annotation>): (r: seq<string>)
    ensures |r| == |anns| && forall k :: 0 <= k < |anns| ==> r[k] == anns[k].frameId
  {
    seq(|anns|, k requires 0 <= k < |anns| => anns[k].frameId)
  }

  function FrameNames(frames: FrameFolder): (r: seq<string>)
    ensures |r| == |frames| && forall k :: 0 <= k < |frames| ==> r[k] == frames[k].name
  {
    seq(|frames|, k requires 0 <= k < |frames| => frames[k].name)
  }

  /** Every annotation carries one of the two labels of the table, and the
      annotated frames follow the frame order. */
  lemma {:induction false} ManualShape(frames: FrameFolder, ds: seq<Decision>)
    requires forall i :: 0 <= i < |ds| ==> ds[i] in {Quit, Invalid, Label(0.9, NoFlags), Label(0.3, TamperedFlags)}
    requires ManualRun(frames, ds).Ok?
    ensures var anns := ManualRun(frames, ds).value;
      |anns| <= |frames| &&
      Subsequence(AnnotatedNames(anns), FrameNames(frames)) &&
      forall k :: 0 <= k < |anns| ==>
        anns[k].notes == ManualNote &&
        ((anns[k].trustworthinessScore == 0.9 && anns[k].ethicalFlags == NoFlags) ||
         (anns[k].trustworthinessScore == 0.3 && anns[k].ethicalFlags == TamperedFlags))
    decreases |frames|
  {
    if frames != [] && ds[0] != Quit {
      var rest := ManualRun(frames[1..], ds[1..]);
      ManualShape(frames[1..], ds[1..]);
      var names := FrameNames(frames);
      assert names == [frames[0].name] + FrameNames(frames[1..]);
      var anns := ManualRun(frames, ds).value;
      if ds[0].Invalid? {
        SubsequenceCons(AnnotatedNames(rest.value), frames[0].name, FrameNames(frames[1..]));
      } else {
        assert anns == [anns[0]] + rest.value;
        assert AnnotatedNames(anns)[1..] == AnnotatedNames(rest.value);
        assert names[1..] == FrameNames(frames[1..]);
      }
    }
  }

  /** A run that labels every readable frame `a` annotates all of them, in
      sorted order. */
  lemma {:induction false} AllAuthentic(frames: FrameFolder, ds: seq<Decision>)
    requires |ds| >= |frames|
    requires forall i :: 0 <= i < |frames| ==> frames[i].content.Some? && ds[i] == Label(0.9, NoFlags)
    ensures ManualRun(frames, ds).Ok?
    ensures var anns := ManualRun(frames, ds).value;
      |anns| == |frames| && forall i :: 0 <= i < |frames| ==>
        anns[i] == Annotation(frames[i].name, 0.9, NoFlags, ManualNote)
    decreases |frames|
  {
    if frames != [] {
      AllAuthentic(frames[1..], ds[1..]);
    }
  }

  /** With fewer replies than frames and no quit, `input()` raises. */
  lemma {:induction false} RepliesRunOut(frames: FrameFolder, ds: seq<Decision>)
    requires |ds| < |frames|
    requires forall i :: 0 <= i < |frames| ==> frames[i].content.Some?
    requires forall i :: 0 <= i < |ds| ==> ds[i] != Quit
    ensures ManualRun(frames, ds) == Err(EOFError)
    decreases |frames|
  {
    if ds != [] {
      RepliesRunOut(frames[1..], ds[1..]);
    }
  }

  /** The annotations are lost for an output path without a directory part,
      such as `labels.json`: the run fails after the last reply, where the
      intended behaviour saves them and creates no directory. */
  lemma BareOutputNameFails(videoFolder: string, outputJson: string, listing: FrameFolder, replies: seq<string>)
    requires ManualRun(JpgEntries(listing), Decisions(replies)).Ok? && '/' !in outputJson
    ensures ManualSpecAsWritten(videoFolder, outputJson, listing, replies) == Err(FileNotFound)
    ensures ManualSpec(videoFolder, outputJson, listing, replies).Ok?
    ensures ManualSpec(videoFolder, outputJson, listing, replies).value.madeDirs == []
  {
  }

  /** With the directory created only when there is one, the run saves
      exactly when the loop completes, and the count matches the
      annotations. */
  lemma ManualSaves(videoFolder: string, outputJson: string, listing: FrameFolder, replies: seq<string>)
    ensures ManualSpec(videoFolder, outputJson, listing, replies).Ok? <==>
      ManualRun(JpgEntries(listing), Decisions(replies)).Ok?
    ensures var r := ManualSpec(videoFolder, outputJson, listing, replies);
      r.Ok? ==> (r.value.path == outputJson &&
                 r.value.file.annotations == ManualRun(JpgEntries(listing), Decisions(replies)).value &&
                 r.value.file.totalFrames == |r.value.file.annotations| &&
                 (r.value.madeDirs == [] <==> '/' !in outputJson))
    ensures var w := ManualSpecAsWritten(videoFolder, outputJson, listing, replies);
      '/' in outputJson ==> w == ManualSpec(videoFolder, outputJson, listing, replies)
  {
  }
}
