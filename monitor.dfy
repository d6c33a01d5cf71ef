/** The monitoring loop: the program-wide state (alarm flag, last alert time
    and the stored face snapshot) and the per-frame work that updates it.
    Frame capture, face detection and the OpenCV measures are inputs; the
    alert effects (glow and siren threads) are reported by a flag saying
    they were started on this frame. */
module Monitor {
  import opened Thresholds
  import opened FaceScan
  import opened Alarm

  /** What one captured frame supplies to the decision logic: the detected
      faces, the size of the grey frame and the wall-clock time read after
      the faces were examined. */
  datatype FrameInput = FrameInput(faces: seq<Face>, rows: nat, cols: nat, now: real)

  /** The snapshot left after a sequence of frames. */
  function SnapshotAfterFrames(prev: Option<Gray>, frames: seq<FrameInput>): (snap: Option<Gray>)
    ensures snap.None? ==> prev.None?
    decreases |frames|
  {
    if frames == [] then prev
    else
      var last := frames[|frames| - 1];
      SnapshotBefore(SnapshotAfterFrames(prev, frames[..|frames| - 1]), last.faces, |last.faces|)
  }

  /** What the alarm state machine sees of one frame, given the snapshot
      left by the frames before it. */
  function FrameTick(prev: Option<Gray>, frame: FrameInput, meanDiff: (Gray, Gray) -> real): (t: Tick)
    ensures t.now == frame.now
    ensures frame.faces == [] ==> !t.stressDetected
  {
    Tick(FrameStress(prev, frame.faces, frame.rows, frame.cols, meanDiff), frame.now)
  }

  /** What the alarm state machine sees of a sequence of frames: for each
      frame its stress verdict (the snapshot carrying over from frame to
      frame) and its time. */
  function FrameTicks(prev: Option<Gray>, frames: seq<FrameInput>, meanDiff: (Gray, Gray) -> real)
    : (ticks: seq<Tick>)
    ensures |ticks| == |frames|
    decreases |frames|
  {
    if frames == [] then []
    else
      var before := frames[..|frames| - 1];
      var last := frames[|frames| - 1];
      FrameTicks(prev, before, meanDiff) + [FrameTick(SnapshotAfterFrames(prev, before), last, meanDiff)]
  }

  /** Taking one more frame of a sequence extends its ticks by that frame's
      tick, taken against the snapshot the earlier frames left, and leaves
      the snapshot that frame's faces leave. */
  lemma FramesPrefixStep(prev: Option<Gray>, frames: seq<FrameInput>, i: nat,
                         meanDiff: (Gray, Gray) -> real)
    requires i < |frames|
    ensures SnapshotAfterFrames(prev, frames[..i + 1])
         == SnapshotBefore(SnapshotAfterFrames(prev, frames[..i]), frames[i].faces, |frames[i].faces|)
    ensures FrameTicks(prev, frames[..i + 1], meanDiff)
         == FrameTicks(prev, frames[..i], meanDiff) + [FrameTick(SnapshotAfterFrames(prev, frames[..i]), frames[i], meanDiff)]
  {
    assert frames[..i + 1][..i] == frames[..i];
  }

  /** The program-wide state of the monitor. */
  class SilentAid {
    var alarmActive: bool
    var lastAlertTime: real
    /** The grey snapshot of the last face examined, if any. */
    var prevFaceRoi: Option<Gray>

    constructor ()
      ensures AlarmState(alarmActive, lastAlertTime) == Initial && prevFaceRoi == None
    {
      alarmActive := false;
      lastAlertTime := 0.0;
      prevFaceRoi := None;
    }

    /** The alarm part of the state. */
    function State(): AlarmState
      reads this
    {
      AlarmState(alarmActive, lastAlertTime)
    }

    /** Examines one face: shivering against the stored snapshot (never on
        the first face ever seen), the facial stress verdict, and the
        snapshot replaced by this face whatever the outcome. */
    method DetectStress(face: Face, meanDiff: (Gray, Gray) -> real)
      returns (shivering: bool, stressMetric: bool)
      modifies this`prevFaceRoi
      ensures prevFaceRoi == Some(face.gray)
      ensures old(prevFaceRoi) == None ==> !shivering
      ensures old(prevFaceRoi).Some? ==> (shivering <==> meanDiff(face.gray, old(prevFaceRoi).value) > ShiverThreshold)
      ensures stressMetric <==> RawScore(face.edgeDensity, face.mouthOpenness) > StressThreshold
    {
      shivering := false;
      if prevFaceRoi.Some? {
        var diffMean := meanDiff(face.gray, prevFaceRoi.value);
        if diffMean > ShiverThreshold {
          shivering := true;
        }
      }
      prevFaceRoi := Some(face.gray);
      var stressScore := StressScore(face.edgeDensity, face.mouthOpenness);
      stressMetric := stressScore > StressThreshold;
    }

    /** The body of the face loop for one face: detect shivering (which
        replaces the snapshot), look for a hand near the heart in the chest
        band, and report whether the face shows both. */
    method ScanFace(face: Face, rows: nat, cols: nat, meanDiff: (Gray, Gray) -> real)
      returns (stressed: bool)
      modifies this`prevFaceRoi
      ensures stressed == FaceVerdict(old(prevFaceRoi), face, rows, cols, meanDiff)
      ensures prevFaceRoi == Some(face.gray)
    {
      var shivering, stressMetric := DetectStress(face, meanDiff);
      var chestSize := ChestBandSize(face.box, rows, cols);
      var handNearHeart := false;
      if chestSize > 0 {
        if face.motionLevel > MotionThreshold {
          handNearHeart := true;
        }
      }
      stressed := shivering && handNearHeart;
    }

    /** Examines every face of a frame in order and reports whether some face
        both shivers and has a hand near its heart. */
    method ScanFaces(faces: seq<Face>, rows: nat, cols: nat, meanDiff: (Gray, Gray) -> real)
      returns (stressDetected: bool)
      modifies this`prevFaceRoi
      ensures stressDetected == FrameStress(old(prevFaceRoi), faces, rows, cols, meanDiff)
      ensures prevFaceRoi == SnapshotBefore(old(prevFaceRoi), faces, |faces|)
    {
      ghost var prev := prevFaceRoi;
      ghost var verdicts := FaceVerdicts(prev, faces, rows, cols, meanDiff);
      stressDetected := false;
      var i := 0;
      while i < |faces|
        invariant 0 <= i <= |faces|
        invariant prevFaceRoi == SnapshotBefore(prev, faces, i)
        invariant stressDetected == AnyStressed(verdicts[..i])
      {
        ghost var snapshot := prevFaceRoi;
        var stressed := ScanFace(faces[i], rows, cols, meanDiff);
        assert verdicts[i] == FaceVerdict(snapshot, faces[i], rows, cols, meanDiff) == stressed;
        if stressed {
          stressDetected := true;
        }
        assert verdicts[..i + 1] == verdicts[..i] + [stressed];
        AnyStressedSnoc(verdicts[..i], stressed);
        i := i + 1;
      }
      assert verdicts[..i] == verdicts;
    }

    /** The alarm update of one frame; `started` tells whether the glow and
        siren effects were launched. */
    method Step(stressDetected: bool, now: real) returns (started: bool)
      modifies this`alarmActive, this`lastAlertTime
      ensures started == Fires(old(State()), Tick(stressDetected, now))
      ensures State() == Next(old(State()), Tick(stressDetected, now))
      ensures alarmActive ==> stressDetected
    {
      started := false;
      if stressDetected && !alarmActive && now - lastAlertTime > AlertCooldown {
        alarmActive := true;
        lastAlertTime := now;
        started := true;
      }
      if !stressDetected && alarmActive {
        alarmActive := false;
      }
    }

    /** One pass of the frame loop: examine the faces, then update the alarm. */
    method ProcessFrame(frame: FrameInput, meanDiff: (Gray, Gray) -> real) returns (started: bool)
      modifies this
      ensures started == Fires(old(State()), FrameTick(old(prevFaceRoi), frame, meanDiff))
      ensures State() == Next(old(State()), FrameTick(old(prevFaceRoi), frame, meanDiff))
      ensures prevFaceRoi == SnapshotBefore(old(prevFaceRoi), frame.faces, |frame.faces|)
    {
      var stressDetected := ScanFaces(frame.faces, frame.rows, frame.cols, meanDiff);
      started := Step(stressDetected, frame.now);
    }

    /** The frame loop over a finite sequence of captured frames; `starts`
        lists the times at which the alert effects were launched, and any
        two of them lie more than the cooldown apart. */
    method RunFrames(frames: seq<FrameInput>, meanDiff: (Gray, Gray) -> real) returns (starts: seq<real>)
      modifies this
      ensures starts == Activations(old(State()), FrameTicks(old(prevFaceRoi), frames, meanDiff))
      ensures State() == Run(old(State()), FrameTicks(old(prevFaceRoi), frames, meanDiff))
      ensures prevFaceRoi == SnapshotAfterFrames(old(prevFaceRoi), frames)
      ensures forall i, j :: 0 <= i < j < |starts| ==> starts[j] - starts[i] > AlertCooldown
    {
      ghost var state0, prev0 := State(), prevFaceRoi;
      starts := [];
      var i := 0;
      while i < |frames|
        invariant 0 <= i <= |frames|
        invariant prevFaceRoi == SnapshotAfterFrames(prev0, frames[..i])
        invariant starts == Activations(state0, FrameTicks(prev0, frames[..i], meanDiff))
        invariant State() == Run(state0, FrameTicks(prev0, frames[..i], meanDiff))
      {
        ghost var ticks := FrameTicks(prev0, frames[..i], meanDiff);
        ghost var t := FrameTick(prevFaceRoi, frames[i], meanDiff);
        FramesPrefixStep(prev0, frames, i, meanDiff);
        RunSnoc(state0, ticks, t);
        var started := ProcessFrame(frames[i], meanDiff);
        if started {
          starts := starts + [frames[i].now];
        }
        i := i + 1;
      }
      assert frames[..|frames|] == frames;
      ActivationsPairwiseSpaced(state0, FrameTicks(prev0, frames, meanDiff));
    }
  }
}
