/** scripts/tampering_frame_skip.py: temporal tampering by dropping a
    random sample of a folder's frames. */
module FrameSkip {
  import opened Wrappers
  import opened Numerics
  import opened Listing
  import opened Pictures
  import Paths

  /** The default `skip_ratio` of `simulate_frame_skipping`. */
  const DefaultSkipRatio: real := 0.4
  /** The default of the command line's `--skip_ratio`. */
  const CliSkipRatio: real := 0.2

  /** `int(len(frames) * skip_ratio)` */
  function SkipCount(n: nat, ratio: real): int
  {
    Trunc(n as real * ratio)
  }

  /** `set(random.sample(range(n), k))` for 0 <= k <= n: `sample(n, k)` is a
      set of k indices of [0, n). */
  ghost predicate ValidSampler(sample: (nat, nat) -> set<int>)
  {
    forall n: nat, k: nat :: k <= n ==>
      |sample(n, k)| == k && forall i :: i in sample(n, k) ==> 0 <= i < n
  }

  /** The files written after the first k frames of the loop. */
  function SkipOutputs(frames: FrameFolder, skip: set<int>, outputFolder: string, k: nat): seq<ImageFile>
    requires k <= |frames|
  {
    if k == 0 then []
    else
      var prev := SkipOutputs(frames, skip, outputFolder, k - 1);
      var f := frames[k - 1];
      if k - 1 !in skip && f.content.Some? then prev + [ImageFile(Paths.Join(outputFolder, f.name), f.content.value)]
      else prev
  }

  /** `simulate_frame_skipping`: the frames written, or the ValueError
      `random.sample` raises for a sample size outside [0, n]. */
  function SkipSpec(listing: FrameFolder, outputFolder: string, ratio: real,
                    sample: (nat, nat) -> set<int>): Result<seq<ImageFile>>
  {
    var frames := JpgEntries(listing);
    var num := SkipCount(|frames|, ratio);
    if num < 0 || num > |frames| then Err(ValueError)
    else Ok(SkipOutputs(frames, sample(|frames|, num), outputFolder, |frames|))
  }

  method SimulateFrameSkipping(listing: FrameFolder, outputFolder: string, ratio: real,
                               sample: (nat, nat) -> set<int>) returns (r: Result<seq<ImageFile>>)
    ensures r == SkipSpec(listing, outputFolder, ratio, sample)
  {
    var frames := JpgEntries(listing);
    var num := Trunc(|frames| as real * ratio);
    if num < 0 || num > |frames| {
      return Err(ValueError);
    }
    var written := WriteKept(frames, sample(|frames|, num), outputFolder);
    return Ok(written);
  }

  /** The loop over the sorted frames, skipping the sampled indices and the
      frames that do not decode. */
  method WriteKept(frames: FrameFolder, skipIndices: set<int>, outputFolder: string)
    returns (written: seq<ImageFile>)
    ensures written == SkipOutputs(frames, skipIndices, outputFolder, |frames|)
  {
    written := [];
    for idx := 0 to |frames|
      invariant written == SkipOutputs(frames, skipIndices, outputFolder, idx)
    {
      if idx in skipIndices {
        continue;
      }
      var frame := frames[idx].content;
      if frame.Some? {
        written := written + [ImageFile(Paths.Join(outputFolder, frames[idx].name), frame.value)];
      }
    }
  }
}

module FrameSkipProperties {
  import opened Wrappers
  import opened Numerics
  import opened Listing
  import opened Pictures
  import Paths
  import opened FrameSkip

  /** The function's default drops 40% of the frames, not the 20% its
      documentation states; 20% is the command line's default. A negative
      ratio above -1/n truncates to zero and raises nothing. */
  lemma SkipCountExamples()
    ensures SkipCount(10, DefaultSkipRatio) == 4 && SkipCount(10, CliSkipRatio) == 2
    ensures SkipCount(7, 0.5) == 3
    ensures SkipCount(5, -0.1) == 0 && SkipCount(5, -0.4) == -2 && SkipCount(5, 1.2) == 6
  {
    assert 10 as real * 0.4 == 4.0;
    assert 10 as real * 0.2 == 2.0;
    assert 7 as real * 0.5 == 3.5;
    assert 5 as real * -0.1 == -0.5;
    assert 5 as real * -0.4 == -2.0;
    assert 5 as real * 1.2 == 6.0;
  }

  /** The sample size is valid exactly for a ratio in [0, 1] up to truncation. */
  lemma SkipCountInRange(n: nat, ratio: real)
    requires 0.0 <= ratio <= 1.0
    ensures 0 <= SkipCount(n, ratio) <= n
  {
    MulLeN(n, ratio);
  }

  lemma MulLeN(n: nat, ratio: real)
    requires 0.0 <= ratio <= 1.0
    ensures 0.0 <= n as real * ratio <= n as real
  {
    assert n as real - n as real * ratio == n as real * (1.0 - ratio);
  }

  /** Written files are the frames neither skipped nor undecodable, in
      sorted order, under their own names. */
  lemma {:induction false} OutputsAreKept(frames: FrameFolder, skip: set<int>, outputFolder: string, k: nat)
    requires k <= |frames|
    ensures var out, kept := SkipOutputs(frames, skip, outputFolder, k), Kept(frames, skip, k);
      |out| == |kept| &&
      forall j :: 0 <= j < |out| ==>
        frames[kept[j]].content.Some? &&
        out[j] == ImageFile(Paths.Join(outputFolder, frames[kept[j]].name), frames[kept[j]].content.value)
  {
    if k > 0 {
      OutputsAreKept(frames, skip, outputFolder, k - 1);
    }
  }

  /** The skipped indices below k. */
  function SkippedBelow(skip: set<int>, k: nat): set<int>
  {
    set i | i in skip && 0 <= i < k
  }

  /** Each index below k is kept, skipped or unreadable: the kept ones
      number at most k minus the skipped ones, and exactly that many when
      every frame decodes. */
  lemma {:induction false} KeptCount(frames: FrameFolder, skip: set<int>, k: nat)
    requires k <= |frames|
    ensures |Kept(frames, skip, k)| <= k - |SkippedBelow(skip, k)|
    ensures (forall i :: 0 <= i < k ==> frames[i].content.Some?) ==>
              |Kept(frames, skip, k)| == k - |SkippedBelow(skip, k)|
  {
    if k == 0 {
      assert SkippedBelow(skip, 0) == {};
    } else {
      KeptCount(frames, skip, k - 1);
      var prev := SkippedBelow(skip, k - 1);
      if k - 1 in skip {
        assert SkippedBelow(skip, k) == prev + {k - 1};
      } else {
        assert SkippedBelow(skip, k) == prev;
      }
    }
  }

  /** The outcome of a run: ValueError exactly when int(n·ratio) lies
      outside [0, n]; otherwise at most n − int(n·ratio) frames are written,
      exactly that many when every frame decodes, each a kept frame under
      its own name in sorted order. */
  lemma SkipOutcome(listing: FrameFolder, outputFolder: string, ratio: real, sample: (nat, nat) -> set<int>)
    requires ValidSampler(sample)
    ensures var frames := JpgEntries(listing); var num := SkipCount(|frames|, ratio);
      SkipSpec(listing, outputFolder, ratio, sample).Err? <==> num < 0 || num > |frames|
    ensures var frames := JpgEntries(listing); var num := SkipCount(|frames|, ratio);
      var r := SkipSpec(listing, outputFolder, ratio, sample);
      r.Ok? ==> (|r.value| <= |frames| - num &&
                 ((forall i :: 0 <= i < |frames| ==> frames[i].content.Some?) ==> |r.value| == |frames| - num))
  {
    var frames := JpgEntries(listing);
    var n := |frames|;
    var num := SkipCount(n, ratio);
    if 0 <= num <= n {
      var skip := sample(n, num);
      assert SkippedBelow(skip, n) == skip;
      KeptCount(frames, skip, n);
      OutputsAreKept(frames, skip, outputFolder, n);
    }
  }
}
