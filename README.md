# SilentAid decision logic in Dafny

SilentAid watches a webcam feed of a patient. For each frame it finds faces
and checks each face for two signs:

- shivering: the face's grey 48x48 image differs from the stored snapshot
  by a mean of more than 10 grey levels;
- a hand near the heart: the chest band under the face box is non-empty,
  and its mean motion is above 2.5.

A frame counts as a stress frame when some face shows both signs. An alarm
switches on when a stress frame arrives, the alarm is off, and strictly more
than 30 seconds have passed since the last alert. Switching on starts a
glowing bulb and a siren. The alarm switches off on the first frame without
stress.

The model has five modules:

- `Thresholds` holds the per-face tests: the facial stress score and its
  verdict, shivering, the chest-band geometry, and the hand-near-heart test.
- `FaceScan` holds the per-frame combination over the detected faces. The
  snapshot is chained from face to face.
- `Alarm` holds the alarm/cooldown state machine as a pure transition
  function. It also has traces of frames and the timestamps of the
  activations.
- `Glow` models one pulse cycle of the bulb. It has `range(0, 255, 5)`
  followed by `range(255, 0, -5)` as sequences, and a `Bulb` class whose
  `PulseCycle` method runs the two loops over the shared colour.
- `Monitor` has the class `SilentAid`. Its fields are the program's
  globals: `alarmActive`, `lastAlertTime` and `prevFaceRoi`. Its methods are
  `detect_stress`, the face loop, the alarm update and the frame loop. Each
  method is proved against the functions above.

Behaviour of `main.py` worth knowing:

- There is no debounce window over frames: a frame is a stress frame iff
  some face has `shivering and hand_near_heart`. The score threshold is 0.7
  (main.py:10), face images are 48x48 (main.py:34) and the shiver threshold
  is 10 (main.py:49).
- `detect_stress` computes a facial stress verdict (`score > 0.7`), but the
  frame loop never uses it. `FaceScan.FrameStressIgnoresScore` states this.
- The snapshot `prev_face_roi` is a single global slot. With several faces
  in one frame, each face after the first is compared with the face just
  before it, not with itself in the previous frame. `FaceScan.FaceVerdicts`
  states this.
- The bulb colour `(i, i // 2, 0)` is passed to OpenCV, which reads it in
  blue-green-red order. The model names the components that way.

Inputs that the model treats as opaque:

- the OpenCV measures: edge density, mean mouth brightness and chest motion
  level, all `real`;
- the mean absolute difference of two grey images, a function parameter
  `meanDiff`;
- the face boxes;
- the frame size;
- the clock, as `now: real`.

## Model

| member | source | states |
|---|---|---|
| `Thresholds.StressScore` | main.py:56 | the score is at most 1 and at most the raw score `2*edge + (1 - mouth/255)`, and it equals one of the two; it is non-negative for in-range inputs |
| `Thresholds.StressVerdict` | main.py:56-58 | the verdict is `score > 0.7` (strict); because the cap lies above the threshold, it holds exactly when the raw score exceeds 0.7 |
| `Thresholds.StressVerdictMonotone` | main.py:56-58 | more edges or a darker mouth never turn a stressed verdict into an unstressed one |
| `Thresholds.Shivering` | main.py:45-50 | no shivering without a stored snapshot; with one, shivering iff the mean difference is `> 10` |
| `Thresholds.ShiveringIsStrict` | main.py:49 | a mean difference of exactly 10 is not shivering |
| `Thresholds.SliceLen` | main.py:115 | length of a Python slice with non-negative bounds: at most the sequence length, positive iff the start is inside and before the end, `hi - lo` when both bounds are in range |
| `Thresholds.ChestBandSize` | main.py:113-115 | the chest band is empty iff the box is under 2 pixels high, the band starts at or below the frame's bottom, the box has no width, or it starts right of the frame |
| `Thresholds.HandNearHeart` | main.py:116-122 | a hand is near the heart only with a non-empty band; then iff the motion level is `> 2.5` |
| `Thresholds.HandNearHeartNeedsBand` | main.py:113-122 | a positive hand-near-heart result implies the band geometry lies inside the frame |
| `FaceScan.FaceVerdicts` | main.py:108-126 | one verdict per face; face i is `shivering && hand_near_heart`, with the snapshot it sees being the stored one for i = 0 and face i-1's image otherwise |
| `FaceScan.AnyStressed` | main.py:106-126 | the fold starting from `False` is true iff some entry is true |
| `FaceScan.AnyStressedSnoc` | main.py:125-126 | folding one more face in gives the old result or that face's verdict |
| `FaceScan.FrameStress` | main.py:106-126 | a frame is a stress frame iff some face both shivers and has a hand near its heart; never for a frame without faces |
| `FaceScan.StressFrameWitness` | main.py:108-126 | a stress frame has a face with a snapshot before it, a difference `> 10`, a non-empty chest band and motion `> 2.5` |
| `FaceScan.FrameStressIgnoresScore` | main.py:110-126 | the frame verdict does not depend on edge density or mouth brightness |
| `FaceScan.FirstSightNeverStressed` | main.py:45-53 | with no stored snapshot, a one-face frame is never a stress frame |
| `Alarm.Next` | main.py:133-142 | after a frame the alarm is on only if the frame showed stress; it is on iff it fired or was on and stress continues; `last_alert_time` changes only on firing, to `now` |
| `Alarm.ExactCooldownDoesNotFire` | main.py:134 | exactly 30 s after the last alert the alarm does not fire |
| `Alarm.CalmFrameSwitchesOff` | main.py:141-142 | a frame without stress turns the alarm off and changes nothing else, whatever the cooldown |
| `Alarm.NoRefireWhileActive` | main.py:134-139 | while the alarm is on nothing fires again, so the effects start once per activation |
| `Alarm.RunSnoc` | main.py:96-142 | one more frame applies one more update and adds its timestamp to the activations iff it fires |
| `Alarm.RunLastAlert` | main.py:135-136 | after any trace, `last_alert_time` is the last activation time, or the initial one if none fired |
| `Alarm.ActivationsSpaced` | main.py:134-136 | the first activation is more than 30 s after the initial alert time; each later one is more than 30 s after the previous one, even with a clock that goes backwards |
| `Alarm.ActivationsFarApart` | main.py:134-136 | activations k places apart are more than k times 30 s apart |
| `Alarm.ActivationsPairwiseSpaced` | main.py:11 | any two activations of a trace are more than `ALERT_COOLDOWN` apart |
| `Alarm.RunActiveOnlyUnderStress` | main.py:141-142 | after any non-empty trace, an active alarm implies the last frame showed stress |
| `Glow.PyRange` | main.py:66 | `range(start, stop, step)`: element k is `start + k*step`, every element is before `stop`, and the next one would not be |
| `Glow.RampUpShape` | main.py:66 | `range(0, 255, 5)` has 51 steps `5k`, stopping at 250 |
| `Glow.RampDownShape` | main.py:69 | `range(255, 0, -5)` has 51 steps `255 - 5k`, stopping at 5 |
| `Glow.PulseShape` | main.py:66-71 | one cycle has 102 intensities: `5k` up to the peak 255 at step 51, then `510 - 5k` |
| `Glow.PulseIsSmooth` | main.py:66-71 | intensities stay within 0..255 and neighbours differ by exactly 5, including the wrap from the end of one cycle to the start of the next |
| `Glow.PulseColorAt` | main.py:67-70 | the colour of step k is the colour of the closed-form intensity of step k |
| `Glow.PulseColorsShape` | main.py:67-70 | every colour has blue within 0..255, green the floor half of blue, and no red; it starts black, peaks at (255, 127, 0) and ends at (5, 2, 0) |
| `Glow.Bulb.constructor` | main.py:21 | the colour starts as (0, 0, 0) |
| `Glow.Bulb.PulseCycle` | main.py:63-71 | the two loops write exactly the pulse colours, in order, and leave (5, 2, 0) as the colour |
| `Monitor.FrameTick` | main.py:106-134 | the tick of a frame carries that frame's time, and a frame without faces is not a stress frame |
| `Monitor.SnapshotAfterFrames` | main.py:53 | a snapshot, once stored, is never cleared |
| `Monitor.FramesPrefixStep` | main.py:96-134 | one more frame adds its tick, judged against the snapshot the earlier frames left |
| `Monitor.SilentAid.constructor` | main.py:20-23 | the alarm starts off, the last alert time is 0, and there is no snapshot |
| `Monitor.SilentAid.DetectStress` | main.py:28-58 | shivering is false on the first face and otherwise is `diff > 10` against the old snapshot; the snapshot becomes this face whatever the result; the verdict is `raw score > 0.7` |
| `Monitor.SilentAid.ScanFace` | main.py:109-126 | the face loop body returns that face's combined verdict and leaves this face as the snapshot |
| `Monitor.SilentAid.ScanFaces` | main.py:106-131 | the face loop computes exactly `FrameStress` of the old snapshot and leaves the last face's image as the snapshot |
| `Monitor.SilentAid.Step` | main.py:133-142 | `started` is the firing condition; the new alarm state is `Alarm.Next` of the old one; the alarm on implies this frame's stress |
| `Monitor.SilentAid.ProcessFrame` | main.py:97-142 | one loop pass applies the face scan and then the alarm update |
| `Monitor.SilentAid.RunFrames` | main.py:96-155 | over any sequence of frames, the effect start times are the trace's activations, any two of them more than 30 s apart, and the final state is the trace's |

## Left out

- OpenCV work is not modelled: `cvtColor`, `resize`, `Canny`, `absdiff`, `GaussianBlur`, `detectMultiScale` and `flip`. Their results are inputs (edge density, mouth mean, difference mean, motion level, boxes), because the pixel arithmetic happens inside the library.
- Floating point is not modelled: scores, thresholds and timestamps are exact reals. `int(1.5 * h)` is taken as `3 * h / 2`, which is exact for any realistic face height.
- `time.time()` is not called: the frame time `now` is an input.
- Threads are not modelled: the glow and siren threads of main.py:138-139 are reported only as the `started` flag.
- `glow_bulb`'s outer `while alarm_active` loop and its `time.sleep` calls are not modelled. They poll a flag that another thread changes. `Bulb.PulseCycle` models one cycle.
- `play_siren` (main.py:76-81) and my_sound.py are not modelled: they are audio playback through pygame.
- Face images are taken as independent inputs. In main.py:109 each face's image is cut from the colour frame after the rectangles and labels of the earlier faces of the same frame were drawn into it (main.py:127-131), so a later face's image, and the snapshot it leaves, may contain those pixels. Every such image is still one of the inputs the model covers.
- Capture and rendering are not modelled: opening the webcam and its error message (main.py:89-92), `cap.read` failure, `rectangle`, `putText`, `circle`, `imshow`, the `q` key and window teardown. `RunFrames` takes a finite sequence of captured frames instead of the endless `while True` loop.
