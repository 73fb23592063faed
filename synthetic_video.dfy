/** examples/make_synthetic_video.py: a test clip of a green square sliding
    to the right on black, with a blurred stretch and a sudden jump. The
    drawing and encoding calls are not modelled: a frame is recorded by
    where the square is drawn and whether it is blurred. */
module SyntheticVideo {
  const Width: int := 320
  const Height: int := 240
  const Side: int := 40
  const Top: int := 100
  const Speed: int := 3
  const StartPos: int := 10
  const JumpFrame: int := 80
  const JumpPos: int := 200
  /** The writer's frame rate. */
  const WriterFps: real := 24.0

  /** The left edge the square is drawn at in frame i: the position at the
      start of iteration i. */
  function PosAt(i: nat): int
  {
    if i == 0 then StartPos
    else if i - 1 == JumpFrame then JumpPos
    else (PosAt(i - 1) + Speed) % (Width - Side)
  }

  /** Frames 41 to 59 are blurred. */
  predicate Blurred(i: int)
  {
    40 < i < 60
  }

  /** A written frame: the filled rectangle from (left, 100) to
      (left + 40, 140), and whether `GaussianBlur` was applied. */
  datatype SynthFrame = SynthFrame(left: int, blurred: bool)

  /** The clip `main` writes for `--frames n`. */
  method MakeFrames(frames: int) returns (written: seq<SynthFrame>)
    ensures |written| == (if frames < 0 then 0 else frames)
    ensures forall i :: 0 <= i < |written| ==> written[i] == SynthFrame(PosAt(i), Blurred(i))
  {
    var w := Width;
    var pos := StartPos;
    written := [];
    var n := if frames < 0 then 0 else frames;
    for i := 0 to n
      invariant |written| == i && pos == PosAt(i)
      invariant forall j :: 0 <= j < i ==> written[j] == SynthFrame(PosAt(j), Blurred(j))
    {
      var left := pos;
      pos := (pos + 3) % (w - 40);
      var blurred := false;
      if 40 < i < 60 {
        blurred := true;
      }
      if i == 80 {
        pos := 200;
      }
      written := written + [SynthFrame(left, blurred)];
    }
  }
}

module SyntheticVideoProperties {
  import opened Numerics
  import opened SyntheticVideo

  lemma ModAddSpeed(a: nat)
    ensures ((a % 280) + 3) % 280 == (a + 3) % 280
  {
    var q, r := a / 280, a % 280;
    assert a == q * 280 + r;
    if r + 3 < 280 {
      DivModUnique(a + 3, 280, q, r + 3);
    } else {
      DivModUnique(a + 3, 280, q + 1, r + 3 - 280);
      DivModUnique(r + 3, 280, 1, r + 3 - 280);
    }
  }

  /** Before the jump the square advances 3 pixels a frame, wrapping at
      280; from the frame after the jump it does the same from 200. */
  lemma {:induction false} PosClosedForm(i: nat)
    ensures i <= 81 ==> PosAt(i) == if i == 81 then 200 else (10 + 3 * i) % 280
    ensures i >= 81 ==> PosAt(i) == (200 + 3 * (i - 81)) % 280
  {
    if i > 0 && i != 81 {
      PosClosedForm(i - 1);
      if i < 81 {
        ModAddSpeed(10 + 3 * (i - 1));
      } else if i > 82 {
        ModAddSpeed(200 + 3 * (i - 82));
      }
    }
  }

  /** The square always lies inside the 320 × 240 frame. */
  lemma {:induction false} SquareInside(i: nat)
    ensures 0 <= PosAt(i) < 280
    ensures 0 <= PosAt(i) && PosAt(i) + Side < Width
    ensures 0 <= Top && Top + Side < Height
  {
    if i > 0 {
      SquareInside(i - 1);
    }
  }
}
