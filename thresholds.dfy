/** The per-face threshold logic of the stress detector: the facial stress
    score and its verdict, the shivering test against the stored snapshot,
    and the chest-band check for a hand near the heart.

    The image measures that OpenCV computes (edge density, mean mouth
    brightness, mean absolute difference of two grey images, mean chest
    motion) are opaque real-valued inputs here; only the comparisons, the
    clamp and the band geometry are modelled. */
module Thresholds {

  /** Sensitivity of the facial stress score, on a 0..1 scale. */
  const StressThreshold: real := 0.7

  /** Mean grey-level change between two face snapshots above which the
      face counts as shivering. */
  const ShiverThreshold: real := 10.0

  /** Mean chest-band motion above which a hand is taken to be near the heart. */
  const MotionThreshold: real := 2.5

  datatype Option<T> = None | Some(value: T)

  /** A face region converted to grey and resized to 48x48. Its pixels are
      never inspected by the model: it is only stored and handed to the
      opaque difference measure. */
  datatype Gray = Gray(pixels: seq<seq<int>>)

  /** The unclamped score: twice the edge density plus the darkness of the
      mouth region (mean brightness 0..255 mapped to 1..0). */
  function RawScore(edgeDensity: real, mouthOpenness: real): real
  {
    edgeDensity * 2.0 + (1.0 - mouthOpenness / 255.0)
  }

  /** The facial stress score, capped at 1 from above (there is no lower clamp). */
  function StressScore(edgeDensity: real, mouthOpenness: real): (score: real)
    ensures score <= 1.0
    ensures score <= RawScore(edgeDensity, mouthOpenness)
    ensures score == 1.0 || score == RawScore(edgeDensity, mouthOpenness)
    ensures 0.0 <= edgeDensity && mouthOpenness <= 255.0 ==> 0.0 <= score
  {
    var raw := RawScore(edgeDensity, mouthOpenness);
    if raw < 1.0 then raw else 1.0
  }

  /** The facial stress verdict: the capped score strictly exceeds the
      threshold. Because the cap (1) lies above the threshold (0.7), the cap
      never changes the verdict. */
  function StressVerdict(edgeDensity: real, mouthOpenness: real): (stressed: bool)
    ensures stressed <==> RawScore(edgeDensity, mouthOpenness) > StressThreshold
  {
    StressScore(edgeDensity, mouthOpenness) > StressThreshold
  }

  /** The verdict is monotone: more edges or a darker mouth never turn a
      stressed verdict into an unstressed one. */
  lemma StressVerdictMonotone(e1: real, m1: real, e2: real, m2: real)
    requires e1 <= e2 && m2 <= m1
    ensures StressVerdict(e1, m1) ==> StressVerdict(e2, m2)
  {
  }

  /** Shivering: there is a stored snapshot and the mean absolute difference
      between the current face and that snapshot exceeds the threshold. */
  function Shivering(prev: Option<Gray>, gray: Gray, meanDiff: (Gray, Gray) -> real): (shivering: bool)
    ensures shivering ==> prev.Some?
    ensures prev.Some? ==> (shivering <==> meanDiff(gray, prev.value) > ShiverThreshold)
  {
    match prev
    case None => false
    case Some(p) => meanDiff(gray, p) > ShiverThreshold
  }

  /** Shivering compares strictly: a difference of exactly the threshold is calm. */
  lemma ShiveringIsStrict(prev: Gray, gray: Gray, meanDiff: (Gray, Gray) -> real)
    requires meanDiff(gray, prev) == ShiverThreshold
    ensures !Shivering(Some(prev), gray, meanDiff)
  {
  }

  /** Number of elements of `a[lo:hi]` for a Python sequence of length n and
      non-negative bounds: bounds past the end are clipped, and an empty or
      reversed range gives nothing. */
  function SliceLen(lo: nat, hi: nat, n: nat): (len: nat)
    ensures len <= n
    ensures len > 0 <==> lo < n && lo < hi
    ensures hi <= n && lo <= hi ==> len == hi - lo
  {
    var top := if hi < n then hi else n;
    var bottom := if lo < n then lo else n;
    if bottom < top then top - bottom else 0
  }

  /** A face's bounding box as the cascade detector reports it. */
  datatype Box = Box(x: nat, y: nat, w: nat, h: nat)

  /** Number of pixels in the chest band under a face: the rows from the
      bottom of the box down to half a box height further (`int(1.5 * h)`
      truncates, which for a non-negative height is `3 * h / 2`), the same
      columns as the box, clipped to a grey frame of rows x cols pixels. */
  function ChestBandSize(box: Box, rows: nat, cols: nat): (size: nat)
    ensures size == 0 <==> box.h < 2 || box.y + box.h >= rows || box.w == 0 || box.x >= cols
  {
    var bandRows := SliceLen(box.y + box.h, box.y + (3 * box.h) / 2, rows);
    var bandCols := SliceLen(box.x, box.x + box.w, cols);
    assert bandRows > 0 <==> box.h >= 2 && box.y + box.h < rows;
    assert bandRows > 0 && bandCols > 0 ==> bandRows * bandCols > 0 by {
      if bandRows > 0 && bandCols > 0 {
        assert bandRows * bandCols >= bandCols;
      }
    }
    bandRows * bandCols
  }

  /** A hand is near the heart when the chest band is non-empty and its mean
      motion strictly exceeds the threshold; the motion level is not
      consulted for an empty band. */
  function HandNearHeart(chestSize: nat, motionLevel: real): (near: bool)
    ensures near ==> chestSize > 0
    ensures chestSize > 0 ==> (near <==> motionLevel > MotionThreshold)
  {
    if chestSize > 0 then motionLevel > MotionThreshold else false
  }

  /** No hand is found near the heart of a face whose chest band falls
      outside the frame or is too thin to hold a row. */
  lemma HandNearHeartNeedsBand(box: Box, rows: nat, cols: nat, motionLevel: real)
    ensures HandNearHeart(ChestBandSize(box, rows, cols), motionLevel) ==>
              box.h >= 2 && box.y + box.h < rows && box.w > 0 && box.x < cols
  {
  }
}
