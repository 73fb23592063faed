/** The frame sampler of src/vdt_scoring/utils/video_io.py. A video
    decoder is a `Capture` object; the container, the codec and the pixels
    are the decoding library's and are represented by the `VideoSource`
    value the capture is opened on. */
module VideoIo {
  import opened Wrappers
  import opened Numerics

  /** A decoded frame, seen through the library calls the scoring applies
      to it: its grayscale pixels (`cvtColor`), the mean Sobel gradient
      magnitude (`Sobel` + `magnitude` + `mean`) and the variance of its
      Laplacian (`Laplacian(...).var()`). */
  datatype Frame = Frame(gray: seq<int>, sobelMeanMagnitude: real, laplacianVariance: real)

  /** What `cv2.VideoCapture(path)` finds at a path: whether it opens, the
      frame rate it reports, and the frames that decode before the first
      failed read. */
  datatype VideoSource = VideoSource(opens: bool, fps: real, frames: seq<Frame>)

  /** A decoder handle: `read()` hands out the source's frames one at a time. */
  class Capture {
    const source: VideoSource
    var position: nat
    var released: bool

    constructor (source: VideoSource)
      ensures this.source == source && position == 0 && !released
    {
      this.source := source;
      position := 0;
      released := false;
    }

    /** `cap.isOpened()` */
    function IsOpened(): bool
    {
      source.opens
    }

    /** `cap.get(cv2.CAP_PROP_FPS)` */
    function Fps(): real
    {
      source.fps
    }

    /** `cap.read()`: the next frame, or `(False, None)` once the stream is
        exhausted, unopened or released. */
    method Read() returns (grabbed: bool, frame: Option<Frame>)
      modifies this`position
      ensures grabbed == (source.opens && !released && old(position) < |source.frames|)
      ensures grabbed ==> frame == Some(source.frames[old(position)]) && position == old(position) + 1
      ensures !grabbed ==> frame == None && position == old(position)
    {
      if source.opens && !released && position < |source.frames| {
        grabbed, frame := true, Some(source.frames[position]);
        position := position + 1;
      } else {
        grabbed, frame := false, None;
      }
    }

    /** `cap.release()` */
    method Release()
      modifies this`released
      ensures released
    {
      released := true;
    }
  }

  /** The distance between sampled indices: `idx % every_nth == 0` keeps the
      multiples of |every_nth| for either sign. */
  function Stride(everyNth: int): nat
  {
    if everyNth < 0 then -everyNth else everyNth
  }

  /** How many multiples of s lie in [0, n): ceil(n / s). */
  function MultiplesBelow(n: nat, s: nat): nat
    requires s > 0
  {
    (n + s - 1) / s
  }

  /** ceil(n / s) is the k with (k - 1)·s < n <= k·s. */
  lemma MultiplesBelowUnique(n: nat, s: nat, k: nat)
    requires s > 0 && (k - 1) * s < n <= k * s
    ensures MultiplesBelow(n, s) == k
  {
    DivModUnique(n + s - 1, s, k, n + s - 1 - k * s);
  }

  lemma MultiplesBelowBounds(n: nat, s: nat)
    requires s > 0
    ensures var k := MultiplesBelow(n, s); (k - 1) * s < n <= k * s
  {
    var k, r := (n + s - 1) / s, (n + s - 1) % s;
    assert n + s - 1 == k * s + r;
  }

  /** The first k sampled pairs: the j-th is frame j·s with its index. */
  function Sampled(frames: seq<Frame>, s: nat, k: nat): (r: seq<(int, Frame)>)
    requires s > 0 && (k - 1) * s < |frames|
    ensures |r| == k
  {
    seq(k, j requires 0 <= j < k =>
      MulMonotone(j, k - 1, s);
      (j * s, frames[j * s]))
  }

  /** The number of pairs the sampler yields from an n-frame stream. */
  function SampleCount(n: nat, everyNth: int, maxFrames: int): nat
    requires everyNth != 0
  {
    var m := MultiplesBelow(n, Stride(everyNth));
    if maxFrames <= 0 then 0 else if m < maxFrames then m else maxFrames
  }

  /** Everything `list(read_frames(...))` produces: the FileNotFoundError for
      an unopenable source, the ZeroDivisionError of `idx % 0` once a frame
      has been read, or the strided, capped list of (index, frame) pairs. */
  function ReadFramesSpec(source: VideoSource, everyNth: int, maxFrames: int): Result<seq<(int, Frame)>>
  {
    if !source.opens then Err(FileNotFound)
    else if maxFrames <= 0 || source.frames == [] then Ok([])
    else if everyNth == 0 then Err(ZeroDivision)
    else
      var s := Stride(everyNth);
      var k := SampleCount(|source.frames|, everyNth, maxFrames);
      MultiplesBelowBounds(|source.frames|, s);
      MulMonotone(k - 1, MultiplesBelow(|source.frames|, s) - 1, s);
      Ok(Sampled(source.frames, s, k))
  }

  /** How many times the sampler calls `cap.read()`: never when the cap is
      not positive, never past the frame of the last yield, and once past
      the end (the failed read) when the stream runs out first. */
  function ReadCallsSpec(source: VideoSource, everyNth: int, maxFrames: int): nat
  {
    var n := |source.frames|;
    if !source.opens || maxFrames <= 0 then 0
    else if everyNth == 0 then 1
    else if MultiplesBelow(n, Stride(everyNth)) >= maxFrames then (maxFrames - 1) * Stride(everyNth) + 1
    else n + 1
  }

  /** `read_frames(path, every_nth, max_frames)`, drained: the pairs it
      yields, the number of `read()` calls it makes, and the decoder it
      opened. The decoder is released exactly when the generator runs to its
      end; the FileNotFoundError and the ZeroDivisionError leave it open. */
  method ReadFrames(source: VideoSource, everyNth: int, maxFrames: int)
    returns (r: Result<seq<(int, Frame)>>, readCalls: nat, cap: Capture)
    ensures r == ReadFramesSpec(source, everyNth, maxFrames)
    ensures readCalls == ReadCallsSpec(source, everyNth, maxFrames)
    ensures fresh(cap) && cap.source == source
    ensures cap.released <==> r.Ok?
  {
    cap := new Capture(source);
    if !cap.IsOpened() {
      return Err(FileNotFound), 0, cap;
    }
    var n := |source.frames|;
    var s := Stride(everyNth);
    var idx := 0;
    var grabbed := true;
    var yielded := 0;
    var out: seq<(int, Frame)> := [];
    ghost var next := 0;  // the index of the next frame to be yielded, yielded·s
    ghost var exhausted := false;
    readCalls := 0;
    while grabbed && yielded < maxFrames
      invariant cap.source == source && cap.position == idx && !cap.released
      invariant grabbed && 0 <= idx <= n && readCalls == idx && yielded == |out|
      invariant everyNth == 0 ==> idx == 0 && out == []
      invariant everyNth != 0 ==> next == yielded * s && idx <= next && next - s < idx
      invariant everyNth != 0 ==> (yielded - 1) * s < n && out == Sampled(source.frames, s, yielded)
      invariant yielded <= maxFrames || yielded == 0
      invariant everyNth != 0 && 0 < maxFrames <= yielded ==> idx == next - s + 1 && idx <= n
      decreases n - idx
    {
      var frame;
      grabbed, frame := cap.Read();
      readCalls := readCalls + 1;
      if !grabbed {
        exhausted := true;
        break;
      }
      if everyNth == 0 {
        return Err(ZeroDivision), readCalls, cap;
      }
      SampledHere(idx, everyNth, yielded, next);
      // Python's `idx % every_nth == 0`: the zero test of the Euclidean
      // remainder agrees with it for either sign (PyModZeroIff).
      if idx % everyNth == 0 {
        SampledSnoc(source.frames, s, yielded);
        out := out + [(idx, frame.value)];
        yielded := yielded + 1;
        next := next + s;
      }
      idx := idx + 1;
    }
    cap.Release();
    if everyNth != 0 && maxFrames > 0 {
      ReadFramesEnd(source, everyNth, maxFrames, yielded, idx, readCalls, exhausted);
    }
    r := Ok(out);
  }

  /** Where the sampling loop stops: on the failed read past the last frame,
      with fewer than max_frames pairs, or right after the frame of the
      max_frames-th pair. Either way it has yielded the SampleCount pairs
      and called `read()` as often as ReadCallsSpec says. */
  lemma ReadFramesEnd(source: VideoSource, everyNth: int, maxFrames: int, yielded: nat, idx: nat,
                      readCalls: nat, exhausted: bool)
    requires source.opens && everyNth != 0 && maxFrames > 0
    requires idx <= |source.frames| && (yielded - 1) * Stride(everyNth) < |source.frames|
    requires idx <= yielded * Stride(everyNth) && yielded * Stride(everyNth) - Stride(everyNth) < idx
    requires exhausted ==> idx == |source.frames| && readCalls == idx + 1 && yielded < maxFrames
    requires !exhausted ==> maxFrames == yielded && readCalls == idx
    requires !exhausted ==> idx == yielded * Stride(everyNth) - Stride(everyNth) + 1
    ensures SampleCount(|source.frames|, everyNth, maxFrames) == yielded
    ensures ReadFramesSpec(source, everyNth, maxFrames) == Ok(Sampled(source.frames, Stride(everyNth), yielded))
    ensures readCalls == ReadCallsSpec(source, everyNth, maxFrames)
  {
    var n, s := |source.frames|, Stride(everyNth);
    if exhausted {
      MultiplesBelowUnique(n, s, yielded);
    } else {
      CapReached(n, s, yielded, idx);
      assert (maxFrames - 1) * s == yielded * s - s;
    }
    if n == 0 {
      assert Sampled(source.frames, s, yielded) == [];
    }
  }

  /** One more sampled pair: frame k·s with its index. */
  lemma SampledSnoc(frames: seq<Frame>, s: nat, k: nat)
    requires s > 0 && k * s < |frames|
    ensures (k + 1) * s == k * s + s && ((k + 1) - 1) * s < |frames|
    ensures (k - 1) * s < |frames| ==>
      Sampled(frames, s, k + 1) == Sampled(frames, s, k) + [(k * s, frames[k * s])]
  {
    assert (k + 1) * s == k * s + s;
    if (k - 1) * s < |frames| {
      var a, b := Sampled(frames, s, k + 1), Sampled(frames, s, k);
      forall j | 0 <= j < k ensures a[j] == b[j] {
        MulMonotone(j, k - 1, s);
      }
      assert a == b + [(k * s, frames[k * s])];
    }
  }

  /** Inside the sampling loop, with next = yielded·s the next multiple of
      the stride and idx in (next − s, next]: `idx % every_nth == 0` holds
      exactly at idx == next. */
  lemma SampledHere(idx: nat, everyNth: int, yielded: nat, next: int)
    requires everyNth != 0
    requires next == yielded * Stride(everyNth) && idx <= next && next - Stride(everyNth) < idx
    ensures idx % everyNth == 0 <==> idx == next
  {
    var s := Stride(everyNth);
    if everyNth < 0 { ModNegDivisor(idx, s); }
    if idx == next {
      DivModUnique(idx, s, yielded, 0);
    } else {
      DivModUnique(idx, s, yielded - 1, idx - (next - s));
    }
  }

  /** When the cap is reached at read position (k − 1)·s + 1 <= n, the
      stream had at least k sampled frames. */
  lemma CapReached(n: nat, s: nat, k: nat, idx: nat)
    requires s > 0 && k > 0 && idx == k * s - s + 1 && idx <= n
    ensures MultiplesBelow(n, s) >= k
  {
    MultiplesBelowBounds(n, s);
    var m := MultiplesBelow(n, s);
    if m < k {
      MulMonotone(m, k - 1, s);
    }
  }
}

module VideoIoProperties {
  import opened Wrappers
  import opened Numerics
  import opened VideoIo

  /** Every yielded pair is (i, frames[i]) for a multiple i of every_nth, the
      indices strictly increase, and no more than max_frames pairs come out. */
  lemma ReadFramesShape(source: VideoSource, everyNth: int, maxFrames: int)
    requires ReadFramesSpec(source, everyNth, maxFrames).Ok?
    ensures var pairs := ReadFramesSpec(source, everyNth, maxFrames).value;
      && (maxFrames <= 0 ==> pairs == [])
      && |pairs| <= (if maxFrames < 0 then 0 else maxFrames)
      && (forall j :: 0 <= j < |pairs| ==>
            0 <= pairs[j].0 < |source.frames| && pairs[j].1 == source.frames[pairs[j].0]
            && pairs[j].0 % everyNth == 0)
      && (forall i, j :: 0 <= i < j < |pairs| ==> pairs[i].0 < pairs[j].0)
  {
    if source.opens && maxFrames > 0 && source.frames != [] && everyNth != 0 {
      var s := Stride(everyNth);
      var k := SampleCount(|source.frames|, everyNth, maxFrames);
      MultiplesBelowBounds(|source.frames|, s);
      MulMonotone(k - 1, MultiplesBelow(|source.frames|, s) - 1, s);
      SampledFacts(source.frames, s, k, everyNth);
    }
  }

  lemma SampledFacts(frames: seq<Frame>, s: nat, k: nat, everyNth: int)
    requires everyNth != 0 && s == Stride(everyNth) && (k - 1) * s < |frames|
    ensures var pairs := Sampled(frames, s, k);
      && (forall j :: 0 <= j < k ==>
            0 <= pairs[j].0 < |frames| && pairs[j].1 == frames[pairs[j].0]
            && pairs[j].0 % everyNth == 0)
      && (forall i, j :: 0 <= i < j < k ==> pairs[i].0 < pairs[j].0)
  {
    var pairs := Sampled(frames, s, k);
    forall j | 0 <= j < k
      ensures 0 <= pairs[j].0 < |frames| && pairs[j].1 == frames[pairs[j].0]
      ensures pairs[j].0 % everyNth == 0
    {
      MulMonotone(j, k - 1, s);
      SampledIsMultiple(s, j, everyNth);
    }
    forall i, j | 0 <= i < j < k ensures pairs[i].0 < pairs[j].0 {
      MulStrict(i, j, s);
    }
  }

  lemma MulStrict(i: nat, j: nat, s: nat)
    requires i < j && s > 0
    ensures i * s < j * s
  {
    assert j * s == i * s + (j - i) * s;
    MulAtLeast(s, j - i);
  }

  lemma SampledIsMultiple(s: nat, j: nat, everyNth: int)
    requires everyNth != 0 && s == Stride(everyNth)
    ensures (j * s) % everyNth == 0
  {
    if everyNth > 0 {
      DividesMod(j * s, everyNth, j);
    } else {
      var m: int := -(j as int);
      assert j * s == everyNth * m;
      DividesMod(j * s, everyNth, m);
    }
  }

  /** An unopenable source fails with FileNotFoundError and reads nothing. */
  lemma UnopenableFails(source: VideoSource, everyNth: int, maxFrames: int)
    requires !source.opens
    ensures ReadFramesSpec(source, everyNth, maxFrames) == Err(FileNotFound)
    ensures ReadCallsSpec(source, everyNth, maxFrames) == 0
  {
  }

  /** A 100-frame source sampled with every_nth = 10 and max_frames = 3
      yields indices 0, 10 and 20, and stops after the 21st read. */
  lemma HundredFramesEveryTenthCapThree(source: VideoSource)
    requires source.opens && |source.frames| == 100
    ensures ReadFramesSpec(source, 10, 3)
      == Ok([(0, source.frames[0]), (10, source.frames[10]), (20, source.frames[20])])
    ensures ReadCallsSpec(source, 10, 3) == 21
  {
    assert MultiplesBelow(100, 10) == 10;
    assert SampleCount(100, 10, 3) == 3;
    var pairs := Sampled(source.frames, 10, 3);
    var expected := [(0, source.frames[0]), (10, source.frames[10]), (20, source.frames[20])];
    assert pairs == expected by {
      assert pairs[0] == expected[0];
      assert pairs[1] == expected[1];
      assert pairs[2] == expected[2];
    }
    assert ReadFramesSpec(source, 10, 3) == Ok(pairs);
  }

  /** The length of the sample is min(ceil(n / |every_nth|), max_frames). */
  lemma ReadFramesLength(source: VideoSource, everyNth: int, maxFrames: int)
    requires source.opens && everyNth != 0
    ensures ReadFramesSpec(source, everyNth, maxFrames).Ok?
    ensures |ReadFramesSpec(source, everyNth, maxFrames).value| == SampleCount(|source.frames|, everyNth, maxFrames)
  {
    if source.frames == [] {
      assert MultiplesBelow(0, Stride(everyNth)) == 0;
    }
  }
}
