/** scripts/extract_frames.py: saving every step-th decoded frame of a video
    under consecutive zero-padded names, and indexing a dataset's videos. */
module ExtractFrames {
  import opened Wrappers
  import opened Numerics
  import opened Strings
  import opened VideoIo
  import Paths

  /** `int(cap.get(cv2.CAP_PROP_FPS)) or 30` */
  function SourceFps(reported: real): (f: int)
    ensures f != 0
  {
    var f := Trunc(reported);
    if f == 0 then 30 else f
  }

  /** `max(1, int(orig_fps / fps))` */
  function Step(origFps: int, fps: int): (step: nat)
    requires fps != 0
    ensures step >= 1
  {
    var q := Trunc(origFps as real / fps as real);
    if q < 1 then 1 else q
  }

  /** `f"frame_{saved:05d}.jpg"` */
  function FrameFileName(k: nat): string
  {
    "frame_" + ZeroPad(k, 5) + ".jpg"
  }

  /** An image file the extractor writes. */
  datatype SavedFrame = SavedFrame(path: string, frame: Frame)

  /** The frames saved after `count` successful reads. */
  function SavedUpTo(frames: seq<Frame>, step: nat, outputDir: string, count: nat): seq<SavedFrame>
    requires step >= 1 && count <= |frames|
  {
    if count == 0 then []
    else
      var prev := SavedUpTo(frames, step, outputDir, count - 1);
      if (count - 1) % step == 0 then
        prev + [SavedFrame(Paths.Join(outputDir, FrameFileName(|prev|)), frames[count - 1])]
      else prev
  }

  /** What one call does: the directories it creates, and the frames saved
      (their number is the return value) or the exception raised. */
  datatype Extraction = Extraction(madeDirs: seq<string>, result: Result<seq<SavedFrame>>)

  /** `extract_frames(video_path, output_dir, fps)`. The output directory is
      made before the video is opened; an unopenable video returns 0. */
  function ExtractSpec(source: VideoSource, outputDir: string, fps: int): Extraction
  {
    if !source.opens then Extraction([outputDir], Ok([]))
    else if fps == 0 then Extraction([outputDir], Err(ZeroDivision))
    else
      var step := Step(SourceFps(source.fps), fps);
      Extraction([outputDir], Ok(SavedUpTo(source.frames, step, outputDir, |source.frames|)))
  }

  /** The loop of `extract_frames`, with the decoder it opens: released
      after reading every frame, left open on the early return for an
      unopenable video and on the ZeroDivisionError. */
  method Extract(source: VideoSource, outputDir: string, fps: int) returns (e: Extraction, cap: Capture)
    ensures e == ExtractSpec(source, outputDir, fps)
    ensures fresh(cap) && cap.source == source
    ensures cap.released <==> source.opens && fps != 0
    ensures cap.released ==> cap.position == |source.frames|
  {
    var madeDirs := [outputDir];
    cap := new Capture(source);
    if !cap.IsOpened() {
      return Extraction(madeDirs, Ok([])), cap;
    }
    var origFps := SourceFps(cap.Fps());
    if fps == 0 {
      return Extraction(madeDirs, Err(ZeroDivision)), cap;
    }
    var step := Step(origFps, fps);

    var count, saved := 0, 0;
    var written: seq<SavedFrame> := [];
    while true
      invariant cap.position == count <= |source.frames| && !cap.released
      invariant written == SavedUpTo(source.frames, step, outputDir, count)
      invariant saved == |written|
      decreases |source.frames| - count
    {
      var ret, frame := cap.Read();
      if !ret {
        break;
      }
      SavedNext(source.frames, step, outputDir, count);
      if count % step == 0 {
        written := written + [SavedFrame(Paths.Join(outputDir, FrameFileName(saved)), frame.value)];
        saved := saved + 1;
      }
      count := count + 1;
    }
    cap.Release();
    assert count == |source.frames|;
    return Extraction(madeDirs, Ok(written)), cap;
  }

  /** One more successful read saves the frame when its index is a multiple
      of the step. */
  lemma SavedNext(frames: seq<Frame>, step: nat, outputDir: string, count: nat)
    requires step >= 1 && count < |frames|
    ensures var prev := SavedUpTo(frames, step, outputDir, count);
      SavedUpTo(frames, step, outputDir, count + 1)
        == if count % step == 0 then prev + [SavedFrame(Paths.Join(outputDir, FrameFileName(|prev|)), frames[count])]
           else prev
  {
  }

  // ---------------- process_dataset ----------------

  /** One `(root, dirs, files)` triple of `os.walk`. */
  datatype WalkDir = WalkDir(root: string, files: seq<string>)

  /** `.mp4`, `.avi` or `.mov` in any letter case. */
  predicate IsVideoFile(name: string)
  {
    var n := Lower(name);
    EndsWith(n, ".mp4") || EndsWith(n, ".avi") || EndsWith(n, ".mov")
  }

  type Row = seq<string>

  const Header: Row := ["video_name", "frame_folder", "num_frames"]

  /** The CSV rows one file of the walk contributes; `videos(path)` is what
      the decoder finds at a path. */
  function FileRows(outputRoot: string, fps: int, videos: string -> VideoSource,
                    root: string, file: string): Result<seq<Row>>
  {
    if !IsVideoFile(file) then Ok([])
    else
      var videoName := Paths.SplitExtRoot(file);
      var outputDir := Paths.Join(outputRoot, videoName);
      var saved :- ExtractSpec(videos(Paths.Join(root, file)), outputDir, fps).result;
      Ok([[videoName, outputDir, IntToString(|saved|)]])
  }

  function DirResults(outputRoot: string, fps: int, videos: string -> VideoSource, d: WalkDir)
    : (rs: seq<Result<seq<Row>>>)
    ensures |rs| == |d.files|
    ensures forall i :: 0 <= i < |rs| ==> rs[i] == FileRows(outputRoot, fps, videos, d.root, d.files[i])
  {
    seq(|d.files|, i requires 0 <= i < |d.files| => FileRows(outputRoot, fps, videos, d.root, d.files[i]))
  }

  function DirRows(outputRoot: string, fps: int, videos: string -> VideoSource, d: WalkDir): Result<seq<Row>>
  {
    var chunks :- Collect(DirResults(outputRoot, fps, videos, d));
    Ok(Flatten(chunks))
  }

  function WalkResults(outputRoot: string, fps: int, videos: string -> VideoSource, walk: seq<WalkDir>)
    : (rs: seq<Result<seq<Row>>>)
    ensures |rs| == |walk|
    ensures forall i :: 0 <= i < |rs| ==> rs[i] == DirRows(outputRoot, fps, videos, walk[i])
  {
    seq(|walk|, i requires 0 <= i < |walk| => DirRows(outputRoot, fps, videos, walk[i]))
  }

  /** `process_dataset`: the CSV it writes, header first. */
  function ProcessSpec(walk: seq<WalkDir>, outputRoot: string, fps: int, videos: string -> VideoSource)
    : Result<seq<Row>>
  {
    var chunks :- Collect(WalkResults(outputRoot, fps, videos, walk));
    Ok([Header] + Flatten(chunks))
  }

  /** The inner loop over one directory's files. */
  method ProcessDir(d: WalkDir, outputRoot: string, fps: int, videos: string -> VideoSource)
    returns (r: Result<seq<Row>>)
    ensures r == DirRows(outputRoot, fps, videos, d)
  {
    ghost var rs := DirResults(outputRoot, fps, videos, d);
    ghost var chunks: seq<seq<Row>> := [];
    var rows: seq<Row> := [];
    for i := 0 to |d.files|
      invariant Collect(rs[..i]) == Ok(chunks)
      invariant rows == Flatten(chunks)
    {
      CollectStep(rs, i);
      var file := d.files[i];
      if IsVideoFile(file) {
        var videoName := Paths.SplitExtRoot(file);
        var outputDir := Paths.Join(outputRoot, videoName);
        var e, _ := Extract(videos(Paths.Join(d.root, file)), outputDir, fps);
        if e.result.Err? {
          CollectStopsAtError(rs, i + 1);
          return Err(e.result.error);
        }
        var row := [videoName, outputDir, IntToString(|e.result.value|)];
        assert Flatten(chunks + [[row]]) == Flatten(chunks) + [row];
        chunks := chunks + [[row]];
        rows := rows + [row];
      } else {
        assert Flatten(chunks + [[]]) == Flatten(chunks);
        chunks := chunks + [[]];
      }
    }
    assert rs[..|d.files|] == rs;
    return Ok(rows);
  }

  method ProcessDataset(walk: seq<WalkDir>, outputRoot: string, fps: int, videos: string -> VideoSource)
    returns (r: Result<seq<Row>>)
    ensures r == ProcessSpec(walk, outputRoot, fps, videos)
  {
    ghost var rs := WalkResults(outputRoot, fps, videos, walk);
    ghost var chunks: seq<seq<Row>> := [];
    var rows: seq<Row> := [];
    for k := 0 to |walk|
      invariant Collect(rs[..k]) == Ok(chunks)
      invariant rows == Flatten(chunks)
    {
      CollectStep(rs, k);
      var dirRows := ProcessDir(walk[k], outputRoot, fps, videos);
      if dirRows.Err? {
        CollectStopsAtError(rs, k + 1);
        return Err(dirRows.error);
      }
      assert Flatten(chunks + [dirRows.value]) == Flatten(chunks) + dirRows.value;
      chunks := chunks + [dirRows.value];
      rows := rows + dirRows.value;
    }
    assert rs[..|walk|] == rs;
    return Ok([Header] + rows);
  }
}

module ExtractFramesProperties {
  import opened Wrappers
  import opened Numerics
  import opened Strings
  import opened VideoIo
  import Paths
  import opened ExtractFrames

  /** The reported rate is truncated, a rate below one frame per second
      falls back to 30, and the step never drops below one frame. */
  lemma StepExamples()
    ensures SourceFps(29.97) == 29 && SourceFps(0.5) == 30 && SourceFps(0.0) == 30
    ensures Step(30, 2) == 15 && Step(25, 2) == 12 && Step(1, 2) == 1
    ensures Step(30, 60) == 1 && Step(30, -2) == 1
  {
    assert Trunc(29.97) == 29;
    assert Trunc(30 as real / 2 as real) == 15;
    assert Trunc(25 as real / 2 as real) == 12;
    assert Trunc(1 as real / 2 as real) == 0;
    assert Trunc(30 as real / 60 as real) == 0;
    assert Trunc(30 as real / -2 as real) == -15;
  }

  lemma {:induction false} SavedCount(frames: seq<Frame>, step: nat, outputDir: string, count: nat)
    requires step >= 1 && count <= |frames|
    ensures |SavedUpTo(frames, step, outputDir, count)| == MultiplesBelow(count, step)
  {
    if count > 0 {
      SavedCount(frames, step, outputDir, count - 1);
      CeilDivStep(count - 1, step);
    }
  }

  /** ceil(m / s) · s == m when s divides m. */
  lemma CeilOfMultiple(m: nat, s: nat)
    requires s >= 1 && m % s == 0
    ensures MultiplesBelow(m, s) * s == m
  {
    var q := m / s;
    assert m == q * s;
    DivModUnique(m + s - 1, s, q, s - 1);
  }

  /** After `count` reads, the saved frames are ceil(count / step) in
      number, the j-th one is frame j·step, and it is named by j. */
  lemma {:induction false} SavedShape(frames: seq<Frame>, step: nat, outputDir: string, count: nat)
    requires step >= 1 && count <= |frames|
    ensures var r := SavedUpTo(frames, step, outputDir, count);
      |r| == MultiplesBelow(count, step) &&
      forall j :: 0 <= j < |r| ==>
        j * step < count && r[j] == SavedFrame(Paths.Join(outputDir, FrameFileName(j)), frames[j * step])
  {
    SavedCount(frames, step, outputDir, count);
    if count > 0 {
      var m := count - 1;
      SavedShape(frames, step, outputDir, m);
      SavedCount(frames, step, outputDir, m);
      if m % step == 0 {
        CeilOfMultiple(m, step);
      }
    }
  }

  /** Every frame whose index is a multiple of the step is saved, as the
      (index / step)-th file. */
  lemma SavedFrameAt(frames: seq<Frame>, step: nat, outputDir: string, count: nat, p: nat)
    requires step >= 1 && count <= |frames|
    requires p < count && p % step == 0
    ensures var r := SavedUpTo(frames, step, outputDir, count);
      p / step < |r| && r[p / step].frame == frames[p]
  {
    MultipleBelowCount(count, step, p);
    SavedShape(frames, step, outputDir, count);
    var r := SavedUpTo(frames, step, outputDir, count);
    var q := p / step;
    assert q * step == p;
    assert r[q].frame == frames[q * step];
  }

  lemma MultipleBelowCount(n: nat, s: nat, p: nat)
    requires s >= 1 && p < n && p % s == 0
    ensures p / s < MultiplesBelow(n, s) && (p / s) * s == p
  {
    var q := p / s;
    assert p == q * s;
    var k := MultiplesBelow(n, s);
    MultiplesBelowBounds(n, s);
    if q >= k {
      MulMonotone(k, q, s);
    }
  }

  lemma FrameFileNameExample()
    ensures FrameFileName(0) == "frame_00000.jpg"
    ensures FrameFileName(42) == "frame_00042.jpg"
  {
    assert DecimalDigits(0) == "0";
    assert DecimalDigits(4) == "4";
    assert DecimalDigits(42) == "42";
  }

  lemma FrameFileNameInjective(j: nat, k: nat)
    requires j != k
    ensures FrameFileName(j) != FrameFileName(k)
  {
    ZeroPadInjective(j, k, 5);
    var a, b := FrameFileName(j), FrameFileName(k);
    assert a[6..|a| - 4] == ZeroPad(j, 5);
    assert b[6..|b| - 4] == ZeroPad(k, 5);
  }

  lemma JoinInjective(dir: string, x: string, y: string)
    requires x != y && |x| > 0 && |y| > 0 && x[0] != '/' && y[0] != '/'
    ensures Paths.Join(dir, x) != Paths.Join(dir, y)
  {
    var px, py := Paths.Join(dir, x), Paths.Join(dir, y);
    var pre := if dir == [] || EndsWith(dir, "/") then dir else dir + "/";
    assert px == pre + x && py == pre + y;
    assert px[|pre|..] == x && py[|pre|..] == y;
  }

  /** No two saved frames share a file. */
  lemma SavedPathsDistinct(frames: seq<Frame>, step: nat, outputDir: string, count: nat, j: nat, k: nat)
    requires step >= 1 && count <= |frames|
    requires var r := SavedUpTo(frames, step, outputDir, count); j < |r| && k < |r| && j != k
    ensures var r := SavedUpTo(frames, step, outputDir, count); r[j].path != r[k].path
  {
    SavedShape(frames, step, outputDir, count);
    FrameFileNameInjective(j, k);
    JoinInjective(outputDir, FrameFileName(j), FrameFileName(k));
  }

  /** The return value of `extract_frames`: 0 for a video that does not
      open, ZeroDivisionError for fps 0, otherwise ceil(n / step) for the n
      frames that decode; the output directory is created in every case. */
  lemma ExtractCount(source: VideoSource, outputDir: string, fps: int)
    ensures ExtractSpec(source, outputDir, fps).madeDirs == [outputDir]
    ensures !source.opens ==> ExtractSpec(source, outputDir, fps).result == Ok([])
    ensures source.opens && fps == 0 ==> ExtractSpec(source, outputDir, fps).result == Err(ZeroDivision)
    ensures source.opens && fps != 0 ==>
      var e := ExtractSpec(source, outputDir, fps);
      e.result.Ok? && |e.result.value| == MultiplesBelow(|source.frames|, Step(SourceFps(source.fps), fps))
  {
    if source.opens && fps != 0 {
      SavedShape(source.frames, Step(SourceFps(source.fps), fps), outputDir, |source.frames|);
    }
  }

  // ---------------- process_dataset ----------------

  function CountVideos(files: seq<string>): nat
  {
    if files == [] then 0
    else CountVideos(files[..|files| - 1]) + (if IsVideoFile(files[|files| - 1]) then 1 else 0)
  }

  function WalkVideos(walk: seq<WalkDir>): nat
  {
    if walk == [] then 0 else WalkVideos(walk[..|walk| - 1]) + CountVideos(walk[|walk| - 1].files)
  }

  /** A video file contributes one row naming it, its frame folder and its
      count; any other file contributes none. */
  lemma FileRowShape(outputRoot: string, fps: int, videos: string -> VideoSource, root: string, file: string)
    ensures var r := FileRows(outputRoot, fps, videos, root, file);
      r.Ok? ==> |r.value| == (if IsVideoFile(file) then 1 else 0)
    ensures var r := FileRows(outputRoot, fps, videos, root, file);
      IsVideoFile(file) && r.Ok? ==>
        var name := Paths.SplitExtRoot(file);
        var e := ExtractSpec(videos(Paths.Join(root, file)), Paths.Join(outputRoot, name), fps);
        e.result.Ok? && r.value == [[name, Paths.Join(outputRoot, name), IntToString(|e.result.value|)]]
    ensures !IsVideoFile(file) ==> FileRows(outputRoot, fps, videos, root, file) == Ok([])
  {
  }

  lemma {:induction false} FlattenCounts(chunks: seq<seq<Row>>, files: seq<string>)
    requires |chunks| == |files|
    requires forall i :: 0 <= i < |chunks| ==> |chunks[i]| == (if IsVideoFile(files[i]) then 1 else 0)
    ensures |Flatten(chunks)| == CountVideos(files)
  {
    if chunks != [] {
      FlattenCounts(chunks[..|chunks| - 1], files[..|files| - 1]);
    }
  }

  lemma DirRowCount(outputRoot: string, fps: int, videos: string -> VideoSource, d: WalkDir)
    requires DirRows(outputRoot, fps, videos, d).Ok?
    ensures |DirRows(outputRoot, fps, videos, d).value| == CountVideos(d.files)
  {
    var rs := DirResults(outputRoot, fps, videos, d);
    var chunks := Collect(rs).value;
    forall i | 0 <= i < |chunks|
      ensures |chunks[i]| == (if IsVideoFile(d.files[i]) then 1 else 0)
    {
      FileRowShape(outputRoot, fps, videos, d.root, d.files[i]);
    }
    FlattenCounts(chunks, d.files);
  }

  lemma {:induction false} FlattenWalk(chunks: seq<seq<Row>>, walk: seq<WalkDir>)
    requires |chunks| == |walk|
    requires forall i :: 0 <= i < |chunks| ==> |chunks[i]| == CountVideos(walk[i].files)
    ensures |Flatten(chunks)| == WalkVideos(walk)
  {
    if chunks != [] {
      FlattenWalk(chunks[..|chunks| - 1], walk[..|walk| - 1]);
    }
  }

  /** The CSV holds the header and one row per video file of the walk. */
  lemma ProcessRowCount(walk: seq<WalkDir>, outputRoot: string, fps: int, videos: string -> VideoSource)
    requires ProcessSpec(walk, outputRoot, fps, videos).Ok?
    ensures var rows := ProcessSpec(walk, outputRoot, fps, videos).value;
      |rows| == 1 + WalkVideos(walk) && rows[0] == Header
  {
    var rs := WalkResults(outputRoot, fps, videos, walk);
    var chunks := Collect(rs).value;
    forall i | 0 <= i < |chunks|
      ensures |chunks[i]| == CountVideos(walk[i].files)
    {
      DirRowCount(outputRoot, fps, videos, walk[i]);
    }
    FlattenWalk(chunks, walk);
  }

  /** Upper-case extensions are recognised; other formats are not. */
  lemma VideoFileExamples()
    ensures IsVideoFile("a.MOV")
    ensures !IsVideoFile("a.mkv")
  {
    assert Lower("a.MOV") == "a.mov";
    assert Lower("a.mkv") == "a.mkv";
  }
}
