/** The frame-level combination: every detected face is checked for
    shivering and for a hand near the heart, and the frame counts as
    "stress detected" when some face shows both.

    The shivering test of each face runs against ONE stored snapshot shared
    by the whole program, and every face overwrites it; so inside a frame the
    first face is compared with the last face of the previous frame that had
    faces, and every later face with the face just before it. */
module FaceScan {
  import opened Thresholds

  /** What the frame loop knows about one detected face: its box, its grey
      48x48 image, and the opaque OpenCV measures of its region. */
  datatype Face = Face(box: Box, gray: Gray, edgeDensity: real, mouthOpenness: real, motionLevel: real)

  /** The stored snapshot at the moment the i-th face of the frame is
      examined (i == |faces| gives the snapshot left after the frame). */
  function SnapshotBefore(prev: Option<Gray>, faces: seq<Face>, i: nat): Option<Gray>
    requires i <= |faces|
  {
    if i == 0 then prev else Some(faces[i - 1].gray)
  }

  /** One face's contribution: it shivers against the given snapshot AND a
      hand is near its heart. */
  function FaceVerdict(prev: Option<Gray>, face: Face, rows: nat, cols: nat,
                       meanDiff: (Gray, Gray) -> real): bool
  {
    Shivering(prev, face.gray, meanDiff)
      && HandNearHeart(ChestBandSize(face.box, rows, cols), face.motionLevel)
  }

  /** The per-face verdicts of a frame, in detection order, each face seeing
      the snapshot its predecessor left behind. */
  function FaceVerdicts(prev: Option<Gray>, faces: seq<Face>, rows: nat, cols: nat,
                        meanDiff: (Gray, Gray) -> real): (verdicts: seq<bool>)
    ensures |verdicts| == |faces|
    ensures forall i {:trigger verdicts[i]} :: 0 <= i < |faces| ==>
              verdicts[i] == FaceVerdict(SnapshotBefore(prev, faces, i), faces[i], rows, cols, meanDiff)
    decreases |faces|
  {
    if faces == [] then []
    else
      var rest := FaceVerdicts(Some(faces[0].gray), faces[1..], rows, cols, meanDiff);
      assert forall i :: 1 <= i < |faces| ==>
               SnapshotBefore(Some(faces[0].gray), faces[1..], i - 1) == SnapshotBefore(prev, faces, i);
      [FaceVerdict(prev, faces[0], rows, cols, meanDiff)] + rest
  }

  /** Whether some entry is set; false for the empty sequence. */
  function AnyStressed(verdicts: seq<bool>): (any: bool)
    ensures any <==> exists i :: 0 <= i < |verdicts| && verdicts[i]
    decreases |verdicts|
  {
    if verdicts == [] then false
    else
      var rest := AnyStressed(verdicts[1..]);
      assert rest <==> exists i :: 1 <= i < |verdicts| && verdicts[i] by {
        if rest {
          var j :| 0 <= j < |verdicts[1..]| && verdicts[1..][j];
          assert verdicts[j + 1];
        }
        if exists i :: 1 <= i < |verdicts| && verdicts[i] {
          var i :| 1 <= i < |verdicts| && verdicts[i];
          assert verdicts[1..][i - 1];
        }
      }
      verdicts[0] || rest
  }

  /** Folding one more verdict into the combination: the frame is stressed
      after it when it was before or the new face is. */
  lemma AnyStressedSnoc(verdicts: seq<bool>, v: bool)
    ensures AnyStressed(verdicts + [v]) == (AnyStressed(verdicts) || v)
  {
    var all := verdicts + [v];
    if AnyStressed(all) && !v {
      var j :| 0 <= j < |all| && all[j];
      assert verdicts[j];
    }
    if AnyStressed(verdicts) {
      var j :| 0 <= j < |verdicts| && verdicts[j];
      assert all[j];
    }
    assert v ==> all[|verdicts|];
  }

  /** The frame's verdict: some face both shivers and has a hand near its
      heart. A frame without faces is never a stress frame. */
  function FrameStress(prev: Option<Gray>, faces: seq<Face>, rows: nat, cols: nat,
                       meanDiff: (Gray, Gray) -> real): (stressed: bool)
    ensures stressed <==>
              (exists i {:trigger FaceVerdict(SnapshotBefore(prev, faces, i), faces[i], rows, cols, meanDiff)} ::
                 0 <= i < |faces| && FaceVerdict(SnapshotBefore(prev, faces, i), faces[i], rows, cols, meanDiff))
    ensures faces == [] ==> !stressed
  {
    var verdicts := FaceVerdicts(prev, faces, rows, cols, meanDiff);
    assert forall i :: 0 <= i < |faces| ==>
             verdicts[i] == FaceVerdict(SnapshotBefore(prev, faces, i), faces[i], rows, cols, meanDiff);
    AnyStressed(verdicts)
  }

  /** A stress frame has some face with a real chest band under it whose
      image moved by more than the threshold against the snapshot before it. */
  lemma StressFrameWitness(prev: Option<Gray>, faces: seq<Face>, rows: nat, cols: nat,
                           meanDiff: (Gray, Gray) -> real)
    requires FrameStress(prev, faces, rows, cols, meanDiff)
    ensures exists i :: 0 <= i < |faces| && SnapshotBefore(prev, faces, i).Some?
              && meanDiff(faces[i].gray, SnapshotBefore(prev, faces, i).value) > ShiverThreshold
              && ChestBandSize(faces[i].box, rows, cols) > 0
              && faces[i].motionLevel > MotionThreshold
  {
    var i :| 0 <= i < |faces| &&
      FaceVerdict(SnapshotBefore(prev, faces, i), faces[i], rows, cols, meanDiff);
    assert SnapshotBefore(prev, faces, i).Some?;
  }

  /** The facial stress score plays no part in the frame verdict: two frames
      that differ only in edge density and mouth brightness get the same
      verdict. */
  lemma FrameStressIgnoresScore(prev: Option<Gray>, faces: seq<Face>, others: seq<Face>,
                                rows: nat, cols: nat, meanDiff: (Gray, Gray) -> real)
    requires |faces| == |others|
    requires forall i :: 0 <= i < |faces| ==>
               faces[i].box == others[i].box && faces[i].gray == others[i].gray
               && faces[i].motionLevel == others[i].motionLevel
    ensures FrameStress(prev, faces, rows, cols, meanDiff) == FrameStress(prev, others, rows, cols, meanDiff)
  {
    forall i | 0 <= i < |faces|
      ensures FaceVerdict(SnapshotBefore(prev, faces, i), faces[i], rows, cols, meanDiff)
           == FaceVerdict(SnapshotBefore(prev, others, i), others[i], rows, cols, meanDiff)
    {
      assert SnapshotBefore(prev, faces, i) == SnapshotBefore(prev, others, i);
    }
  }

  /** With no stored snapshot, a frame holding a single face is never a
      stress frame: its one face has nothing to be compared with. */
  lemma FirstSightNeverStressed(face: Face, rows: nat, cols: nat, meanDiff: (Gray, Gray) -> real)
    ensures !FrameStress(None, [face], rows, cols, meanDiff)
  {
  }
}
