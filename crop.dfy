/** scripts/tampering_crop.py: spatial tampering by cutting a random window
    out of every frame and scaling it back to the frame's size. */
module Crop {
  import opened Wrappers
  import opened Numerics
  import opened Listing
  import opened Pictures
  import opened RandomDraws
  import Paths

  /** The default `crop_ratio`. */
  const DefaultCropRatio: real := 0.3

  /** `int(n * (1 - crop_ratio))` */
  function Extent(n: nat, ratio: real): int
  {
    Trunc(n as real * (1.0 - ratio))
  }

  /** A crop window: its top-left corner and its width and height. */
  datatype Window = Window(x: int, y: int, cw: int, ch: int)

  /** The window of an h × w frame, drawn with `random.randint(0, w - cw)`
      and then `random.randint(0, h - ch)`; an empty range raises ValueError. */
  function CropWindow(h: nat, w: nat, ratio: real, draw: (real, real)): Result<Window>
    requires IsDraw(draw.0) && IsDraw(draw.1)
  {
    var ch, cw := Extent(h, ratio), Extent(w, ratio);
    if w - cw < 0 then Err(ValueError)
    else if h - ch < 0 then Err(ValueError)
    else Ok(Window(RandInt(0, w - cw, draw.0), RandInt(0, h - ch, draw.1), cw, ch))
  }

  /** The cropped frame: the window's slice scaled back to the frame's size;
      `cv2.resize` raises on an empty slice. */
  function CropFrame(img: Picture, ratio: real, draw: (real, real)): (r: Result<Picture>)
    requires IsDraw(draw.0) && IsDraw(draw.1)
    ensures r.Ok? ==> r.value.Resized? && r.value.rows == img.rows && r.value.cols == img.cols
  {
    var win :- CropWindow(img.rows, img.cols, ratio, draw);
    var region := Slice(img, win.y, win.y + win.ch, win.x, win.x + win.cw);
    if region.rows == 0 || region.cols == 0 then Err(ImageError)
    else Ok(Resized(region, img.rows, img.cols))
  }

  /** What the loop obtains for frame i: nothing for a frame that does not
      decode, otherwise the cropped picture or the exception. Frame i
      consumes the draws `draws(i)`. */
  function Crops(frames: FrameFolder, ratio: real, draws: nat -> (real, real)): (cs: seq<Option<Result<Picture>>>)
    requires DrawPairs(draws)
    ensures |cs| == |frames|
  {
    seq(|frames|, i requires 0 <= i < |frames| =>
      if frames[i].content.None? then None else Some(CropFrame(frames[i].content.value, ratio, draws(i))))
  }

  lemma CropAt(frames: FrameFolder, ratio: real, draws: nat -> (real, real), i: nat)
    requires DrawPairs(draws) && i < |frames|
    ensures IsDraw(draws(i).0) && IsDraw(draws(i).1)
    ensures Crops(frames, ratio, draws)[i] ==
      if frames[i].content.None? then None else Some(CropFrame(frames[i].content.value, ratio, draws(i)))
  {
  }

  /** One pass of the loop: a frame that does not decode is passed over, a
      cropped one is written under the frame's own name. */
  function FrameStep(f: Entry<Option<Picture>>, outputFolder: string, c: Option<Result<Picture>>,
                     out: seq<ImageFile>): (r: Result<seq<ImageFile>>)
    ensures c.None? ==> r == Ok(out)
    ensures c.Some? && c.value.Err? ==> r == Err(c.value.error)
    ensures c.Some? && c.value.Ok? ==>
      r.Ok? && |r.value| == |out| + 1 && r.value[..|out|] == out &&
      r.value[|out|] == ImageFile(Paths.Join(outputFolder, f.name), c.value.value)
  {
    match c
    case None => Ok(out)
    case Some(Err(e)) => Err(e)
    case Some(Ok(p)) =>
      assert (out + [ImageFile(Paths.Join(outputFolder, f.name), p)])[..|out|] == out;
      Ok(out + [ImageFile(Paths.Join(outputFolder, f.name), p)])
  }

  /** The files written after the first k frames, and the exception that
      ended the loop, if any; `crops` holds what each frame gives. */
  function CropRun(frames: FrameFolder, outputFolder: string, crops: seq<Option<Result<Picture>>>, k: nat)
    : (seq<ImageFile>, Option<PyError>)
    requires |crops| == |frames| && k <= |frames|
  {
    if k == 0 then ([], None)
    else
      var prev := CropRun(frames, outputFolder, crops, k - 1);
      if prev.1.Some? then prev
      else match FrameStep(frames[k - 1], outputFolder, crops[k - 1], prev.0)
        case Err(e) => (prev.0, Some(e))
        case Ok(out') => (out', None)
  }

  /** `simulate_cropping` over the sorted `.jpg` frames of a folder. */
  function CropSpec(listing: FrameFolder, outputFolder: string, ratio: real,
                    draws: nat -> (real, real)): (seq<ImageFile>, Option<PyError>)
    requires DrawPairs(draws)
  {
    var frames := JpgEntries(listing);
    CropRun(frames, outputFolder, Crops(frames, ratio, draws), |frames|)
  }

  method SimulateCropping(listing: FrameFolder, outputFolder: string, ratio: real,
                          draws: nat -> (real, real)) returns (written: seq<ImageFile>, err: Option<PyError>)
    requires DrawPairs(draws)
    ensures (written, err) == CropSpec(listing, outputFolder, ratio, draws)
  {
    var frames := JpgEntries(listing);
    written, err := CropFrames(frames, ratio, outputFolder, draws);
  }

  /** The per-frame loop. */
  method CropFrames(frames: FrameFolder, ratio: real, outputFolder: string,
                    draws: nat -> (real, real)) returns (written: seq<ImageFile>, err: Option<PyError>)
    requires DrawPairs(draws)
    ensures (written, err) == CropRun(frames, outputFolder, Crops(frames, ratio, draws), |frames|)
  {
    ghost var cs := Crops(frames, ratio, draws);
    written, err := [], None;
    for i := 0 to |frames|
      invariant (written, None) == CropRun(frames, outputFolder, cs, i)
    {
      CropAt(frames, ratio, draws, i);
      var frame := frames[i].content;
      if frame.None? {
        continue;
      }
      var cropped := CropFrame(frame.value, ratio, draws(i));
      if cropped.Err? {
        ErrorPersists(frames, outputFolder, cs, i + 1, |frames|);
        return written, Some(cropped.error);
      }
      written := written + [ImageFile(Paths.Join(outputFolder, frames[i].name), cropped.value)];
    }
  }

  /** Once a frame has raised, no later frame is written. */
  lemma {:induction false} ErrorPersists(frames: FrameFolder, outputFolder: string,
                                         crops: seq<Option<Result<Picture>>>, k: nat, n: nat)
    requires |crops| == |frames| && k <= n <= |frames|
    requires CropRun(frames, outputFolder, crops, k).1.Some?
    ensures CropRun(frames, outputFolder, crops, n) == CropRun(frames, outputFolder, crops, k)
    decreases n
  {
    if n > k {
      ErrorPersists(frames, outputFolder, crops, k, n - 1);
    }
  }
}

module CropProperties {
  import opened Wrappers
  import opened Numerics
  import opened Listing
  import opened Pictures
  import opened RandomDraws
  import Paths
  import opened Crop

  lemma MulFraction(n: nat, ratio: real)
    requires 0.0 <= ratio <= 1.0
    ensures 0.0 <= n as real * (1.0 - ratio) <= n as real
  {
    assert n as real - n as real * (1.0 - ratio) == n as real * ratio;
  }

  /** For a ratio in [0, 1] the window's sides fit the frame's. */
  lemma ExtentBounds(n: nat, ratio: real)
    requires 0.0 <= ratio <= 1.0
    ensures 0 <= Extent(n, ratio) <= n
  {
    MulFraction(n, ratio);
  }

  /** For a ratio in [0, 1] a window is always drawn and lies inside the
      frame; otherwise ValueError is raised exactly when a side would exceed
      the frame's. */
  lemma WindowInside(h: nat, w: nat, ratio: real, draw: (real, real))
    requires IsDraw(draw.0) && IsDraw(draw.1)
    ensures CropWindow(h, w, ratio, draw).Err? <==> Extent(w, ratio) > w || Extent(h, ratio) > h
    ensures 0.0 <= ratio <= 1.0 ==> CropWindow(h, w, ratio, draw).Ok?
    ensures var r := CropWindow(h, w, ratio, draw);
      r.Ok? ==> 0 <= r.value.x && r.value.x + r.value.cw <= w && 0 <= r.value.y && r.value.y + r.value.ch <= h
  {
    if 0.0 <= ratio <= 1.0 {
      ExtentBounds(h, ratio);
      ExtentBounds(w, ratio);
    }
  }

  /** Every corner of the allowed range is reachable. */
  lemma WindowCovers(h: nat, w: nat, ratio: real, x: int, y: int)
    requires 0 <= x <= w - Extent(w, ratio) && 0 <= y <= h - Extent(h, ratio)
    ensures var draw := (x as real / (w - Extent(w, ratio) + 1) as real, y as real / (h - Extent(h, ratio) + 1) as real);
      IsDraw(draw.0) && IsDraw(draw.1) && CropWindow(h, w, ratio, draw) == Ok(Window(x, y, Extent(w, ratio), Extent(h, ratio)))
  {
    RandIntCovers(0, w - Extent(w, ratio), x);
    RandIntCovers(0, h - Extent(h, ratio), y);
  }

  /** With a non-empty window the output is that window of the frame scaled
      back to the frame's size; an empty one makes `cv2.resize` raise. */
  lemma CropFrameShape(img: Picture, ratio: real, draw: (real, real))
    requires IsDraw(draw.0) && IsDraw(draw.1) && 0.0 <= ratio <= 1.0
    ensures var r := CropFrame(img, ratio, draw);
      var win := CropWindow(img.rows, img.cols, ratio, draw).value;
      if win.cw > 0 && win.ch > 0 then r == Ok(Resized(Region(img, win.y, win.x, win.ch, win.cw), img.rows, img.cols))
      else r == Err(ImageError)
  {
    WindowInside(img.rows, img.cols, ratio, draw);
    ExtentBounds(img.rows, ratio);
    ExtentBounds(img.cols, ratio);
    var win := CropWindow(img.rows, img.cols, ratio, draw).value;
    SliceInside(img, win.y, win.ch, win.x, win.cw);
  }

  lemma SliceInside(img: Picture, y: int, ch: int, x: int, cw: int)
    requires 0 <= y && 0 <= ch && y + ch <= img.rows
    requires 0 <= x && 0 <= cw && x + cw <= img.cols
    ensures Slice(img, y, y + ch, x, x + cw) == Region(img, y, x, ch, cw)
  {
    assert SliceSpan(img.rows, y, y + ch) == (y, ch);
    assert SliceSpan(img.cols, x, x + cw) == (x, cw);
  }

  /** A ratio of 0 keeps the whole frame. */
  lemma ZeroRatioFullFrame(img: Picture, draw: (real, real))
    requires IsDraw(draw.0) && IsDraw(draw.1)
    requires img.rows > 0 && img.cols > 0
    ensures CropWindow(img.rows, img.cols, 0.0, draw) == Ok(Window(0, 0, img.cols, img.rows))
    ensures CropFrame(img, 0.0, draw) == Ok(Resized(Region(img, 0, 0, img.rows, img.cols), img.rows, img.cols))
  {
    assert Extent(img.rows, 0.0) == img.rows;
    assert Extent(img.cols, 0.0) == img.cols;
  }

  /** A ratio close to 1 leaves an empty window on a small frame. */
  lemma NearOneRatioRaises(draw: (real, real))
    requires IsDraw(draw.0) && IsDraw(draw.1)
    ensures CropFrame(Decoded("f.jpg", 50, 80), 0.99, draw) == Err(ImageError)
  {
    assert Extent(50, 0.99) == 0;
    assert Extent(80, 0.99) == 0;
  }

  /** `file` is what the loop writes for the decodable frame f: the frame's
      own name under the output folder, and a picture scaled to its size. */
  predicate FileFor(file: ImageFile, f: Entry<Option<Picture>>, outputFolder: string)
  {
    f.content.Some? &&
    file.path == Paths.Join(outputFolder, f.name) &&
    file.picture.Resized? &&
    file.picture.rows == f.content.value.rows &&
    file.picture.cols == f.content.value.cols
  }

  /** `out` holds one file per index of `kept`, each the file for its frame. */
  predicate WrittenFor(out: seq<ImageFile>, frames: FrameFolder, kept: seq<nat>, outputFolder: string)
    decreases |out|
  {
    |out| == |kept| &&
    (out != [] ==>
      kept[|kept| - 1] < |frames| &&
      FileFor(out[|out| - 1], frames[kept[|kept| - 1]], outputFolder) &&
      WrittenFor(out[..|out| - 1], frames, kept[..|kept| - 1], outputFolder))
  }

  /** Read index by index, `WrittenFor` pairs the j-th file with frame kept[j]. */
  lemma {:induction false} WrittenForAt(out: seq<ImageFile>, frames: FrameFolder, kept: seq<nat>,
                                        outputFolder: string, j: nat)
    requires WrittenFor(out, frames, kept, outputFolder) && j < |out|
    ensures |out| == |kept| && kept[j] < |frames| && FileFor(out[j], frames[kept[j]], outputFolder)
    decreases |out|
  {
    if j < |out| - 1 {
      WrittenForAt(out[..|out| - 1], frames, kept[..|kept| - 1], outputFolder, j);
    }
  }

  /** Each crop result is absent exactly for a frame that does not decode,
      and a picture produced has the frame's size. */
  predicate CropsFit(frames: FrameFolder, crops: seq<Option<Result<Picture>>>)
  {
    |crops| == |frames| &&
    forall i :: 0 <= i < |frames| ==>
      (crops[i].None? <==> frames[i].content.None?) &&
      (crops[i].Some? && crops[i].value.Ok? ==>
        crops[i].value.value.Resized? &&
        crops[i].value.value.rows == frames[i].content.value.rows &&
        crops[i].value.value.cols == frames[i].content.value.cols)
  }

  lemma CropsFitFrames(frames: FrameFolder, ratio: real, draws: nat -> (real, real))
    requires DrawPairs(draws)
    ensures CropsFit(frames, Crops(frames, ratio, draws))
  {
    var cs := Crops(frames, ratio, draws);
    forall i | 0 <= i < |frames|
      ensures (cs[i].None? <==> frames[i].content.None?) &&
        (cs[i].Some? && cs[i].value.Ok? ==>
          cs[i].value.value.Resized? &&
          cs[i].value.value.rows == frames[i].content.value.rows &&
          cs[i].value.value.cols == frames[i].content.value.cols)
    {
      CropAt(frames, ratio, draws, i);
    }
  }

  /** Without an exception, one file is written per decodable frame, in
      sorted order, under the frame's own name, at the frame's size. */
  lemma {:induction false} CropRunShape(frames: FrameFolder, outputFolder: string,
                                        crops: seq<Option<Result<Picture>>>, k: nat)
    requires CropsFit(frames, crops) && k <= |frames|
    ensures var r := CropRun(frames, outputFolder, crops, k);
      r.1.None? ==> WrittenFor(r.0, frames, Kept(frames, {}, k), outputFolder)
  {
    if k > 0 {
      CropRunShape(frames, outputFolder, crops, k - 1);
      var prev := CropRun(frames, outputFolder, crops, k - 1);
      var step := FrameStep(frames[k - 1], outputFolder, crops[k - 1], prev.0);
      if prev.1.None? && step.Ok? {
        assert CropRun(frames, outputFolder, crops, k) == (step.value, None);
        WrittenForStep(prev.0, frames, Kept(frames, {}, k - 1), outputFolder, crops, k - 1, step.value);
      }
    }
  }

  /** One pass of the loop keeps the pairing of files with decodable frames. */
  lemma WrittenForStep(out: seq<ImageFile>, frames: FrameFolder, kept: seq<nat>, outputFolder: string,
                       crops: seq<Option<Result<Picture>>>, i: nat, out': seq<ImageFile>)
    requires CropsFit(frames, crops) && i < |frames|
    requires kept == Kept(frames, {}, i) && WrittenFor(out, frames, kept, outputFolder)
    requires FrameStep(frames[i], outputFolder, crops[i], out) == Ok(out')
    ensures WrittenFor(out', frames, Kept(frames, {}, i + 1), outputFolder)
  {
    if frames[i].content.Some? {
      var kept' := kept + [i];
      assert out'[..|out|] == out && kept'[..|kept|] == kept;
      assert FileFor(out'[|out|], frames[i], outputFolder);
    }
  }

  /** `simulate_cropping` without an exception writes one file per decodable
      `.jpg` frame, in sorted order, under the frame's own name, at the
      frame's size. */
  lemma CropSpecShape(listing: FrameFolder, outputFolder: string, ratio: real, draws: nat -> (real, real))
    requires DrawPairs(draws)
    ensures var frames := JpgEntries(listing); var r := CropSpec(listing, outputFolder, ratio, draws);
      r.1.None? ==> WrittenFor(r.0, frames, Kept(frames, {}, |frames|), outputFolder)
  {
    var frames := JpgEntries(listing);
    CropsFitFrames(frames, ratio, draws);
    CropRunShape(frames, outputFolder, Crops(frames, ratio, draws), |frames|);
  }

  /** The loop raises only when some frame's crop raised. */
  lemma {:induction false} CropRunNoError(frames: FrameFolder, outputFolder: string,
                                          crops: seq<Option<Result<Picture>>>, k: nat)
    requires |crops| == |frames| && k <= |frames|
    requires forall i :: 0 <= i < k && crops[i].Some? ==> crops[i].value.Ok?
    ensures CropRun(frames, outputFolder, crops, k).1.None?
  {
    if k > 0 {
      CropRunNoError(frames, outputFolder, crops, k - 1);
    }
  }

  /** For a ratio in [0, 1], the loop raises only when some decodable
      frame's window is empty. */
  lemma CropRunSucceeds(frames: FrameFolder, ratio: real, outputFolder: string, draws: nat -> (real, real))
    requires DrawPairs(draws) && 0.0 <= ratio <= 1.0
    requires forall i :: 0 <= i < |frames| && frames[i].content.Some? ==>
      Extent(frames[i].content.value.rows, ratio) > 0 && Extent(frames[i].content.value.cols, ratio) > 0
    ensures CropRun(frames, outputFolder, Crops(frames, ratio, draws), |frames|).1.None?
  {
    var cs := Crops(frames, ratio, draws);
    forall i | 0 <= i < |frames| && cs[i].Some?
      ensures cs[i].value.Ok?
    {
      CropAt(frames, ratio, draws, i);
      CropFrameShape(frames[i].content.value, ratio, draws(i));
    }
    CropRunNoError(frames, outputFolder, cs, |frames|);
  }
}
