/** Images as the scripts handle them. Pixel values are never inspected by
    the modelled logic, so a picture records only its size and how it was
    obtained; the OpenCV calls that make new pictures are constructors. */
module Pictures {
  import opened Wrappers
  import opened Listing

  /** An image array of `rows` × `cols` pixels (three colour channels when
      decoded from a file). */
  datatype Picture =
    | Decoded(file: string, rows: nat, cols: nat)
      // `cv2.imread(file)` of a readable image
    | Region(source: Picture, top: nat, left: nat, rows: nat, cols: nat)
      // `img[top:top + rows, left:left + cols]`, bounds already normalised
    | Resized(source: Picture, rows: nat, cols: nat)
      // `cv2.resize(img, (cols, rows))`
    | PixelRow(source: Picture, index: nat, rows: nat, cols: nat)
      // `img[index]` of a colour image: a (width, 3) array

  /** The bounds `a[start:stop]` selects from a length-n axis: Python counts
      negative bounds from the end and clamps both into [0, n]. */
  function SliceBound(n: nat, b: int): (r: nat)
    ensures r <= n
    ensures 0 <= b <= n ==> r == b
  {
    if b < 0 then (if b + n < 0 then 0 else b + n) else if b > n then n else b
  }

  /** The (first, count) pair a step-1 slice selects. */
  function SliceSpan(n: nat, start: int, stop: int): (r: (nat, nat))
    ensures r.0 + r.1 <= n
    ensures 0 <= start <= stop <= n ==> r == (start, stop - start)
  {
    var lo, hi := SliceBound(n, start), SliceBound(n, stop);
    if hi <= lo then (lo, 0) else (lo, hi - lo)
  }

  /** `img[y0:y1, x0:x1]` on a picture. */
  function Slice(p: Picture, y0: int, y1: int, x0: int, x1: int): (q: Picture)
    ensures q.rows <= p.rows && q.cols <= p.cols
  {
    var (top, rows) := SliceSpan(p.rows, y0, y1);
    var (left, cols) := SliceSpan(p.cols, x0, x1);
    Region(p, top, left, rows, cols)
  }

  /** A folder of frame files: each entry holds what `imread` returns for it,
      nothing for a file that does not decode. */
  type FrameFolder = seq<Entry<Option<Picture>>>

  /** An image file written with `imwrite` at its default settings. */
  datatype ImageFile = ImageFile(path: string, picture: Picture)

  /** The indices below k of frames that decode and are not in `skip`, in
      increasing order. */
  function Kept(frames: FrameFolder, skip: set<int>, k: nat): (r: seq<nat>)
    requires k <= |frames|
    ensures |r| <= k
    ensures forall j :: 0 <= j < |r| ==> r[j] < k
  {
    if k == 0 then []
    else
      var prev := Kept(frames, skip, k - 1);
      if k - 1 !in skip && frames[k - 1].content.Some? then prev + [k - 1] else prev
  }

  predicate Increasing(r: seq<nat>)
  {
    forall j, l :: 0 <= j < l < |r| ==> r[j] < r[l]
  }

  /** The kept indices increase strictly and are exactly those of decodable,
      non-skipped frames. */
  lemma {:induction false} KeptFacts(frames: FrameFolder, skip: set<int>, k: nat)
    requires k <= |frames|
    ensures Increasing(Kept(frames, skip, k))
    ensures forall i :: 0 <= i < k ==> (i in Kept(frames, skip, k) <==> i !in skip && frames[i].content.Some?)
  {
    if k > 0 {
      KeptFacts(frames, skip, k - 1);
      var prev, r := Kept(frames, skip, k - 1), Kept(frames, skip, k);
      if k - 1 !in skip && frames[k - 1].content.Some? {
        assert r == prev + [k - 1];
        forall j, l | 0 <= j < l < |r| ensures r[j] < r[l] {
          assert r[j] == prev[j];
          if l < |prev| {
            assert r[l] == prev[l];
          }
        }
      } else {
        assert r == prev;
      }
    }
  }
}
