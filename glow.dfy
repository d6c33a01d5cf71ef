/** The visual alarm: one pulse cycle of the glowing bulb ramps an intensity
    up from 0 in steps of 5 and back down, and writes the colour
    (intensity, intensity / 2, 0) for each step. The colour is in OpenCV's
    blue-green-red order, so the bulb glows blue with half as much green. */
module Glow {

  /** Python's `range(start, stop, step)` for a non-zero step. */
  function PyRange(start: int, stop: int, step: int): (r: seq<int>)
    requires step != 0
    ensures forall k :: 0 <= k < |r| ==> r[k] == start + k * step
    ensures forall k :: 0 <= k < |r| ==> if step > 0 then r[k] < stop else r[k] > stop
    ensures if step > 0 then start + |r| * step >= stop else start + |r| * step <= stop
    decreases if step > 0 then stop - start else start - stop
  {
    if (step > 0 && start < stop) || (step < 0 && start > stop) then
      var rest := PyRange(start + step, stop, step);
      assert forall k :: 1 <= k <= |rest| ==> rest[k - 1] == start + k * step by {
        forall k | 1 <= k <= |rest| ensures rest[k - 1] == start + k * step {
          assert (start + step) + (k - 1) * step == start + k * step;
        }
      }
      assert (start + step) + |rest| * step == start + (|rest| + 1) * step;
      [start] + rest
    else
      []
  }

  /** A colour in OpenCV's blue-green-red order. */
  datatype Bgr = Bgr(blue: int, green: int, red: int)

  /** The colour shown for one intensity (floor division by 2). */
  function ColorOf(intensity: int): Bgr
  {
    Bgr(intensity, intensity / 2, 0)
  }

  /** `range(0, 255, 5)`: the rising half of a pulse. */
  function RampUp(): seq<int>
  {
    PyRange(0, 255, 5)
  }

  /** `range(255, 0, -5)`: the falling half of a pulse. */
  function RampDown(): seq<int>
  {
    PyRange(255, 0, -5)
  }

  /** The rising half has 51 steps 0, 5, ..., 250: it stops short of 255. */
  lemma RampUpShape()
    ensures |RampUp()| == 51
    ensures forall k :: 0 <= k < 51 ==> RampUp()[k] == 5 * k
  {
    var r := RampUp();
    assert |r| > 50 by {
      assert 5 * |r| >= 255;
    }
    assert r[|r| - 1] < 255;
  }

  /** The falling half has 51 steps 255, 250, ..., 5: it stops short of 0. */
  lemma RampDownShape()
    ensures |RampDown()| == 51
    ensures forall k :: 0 <= k < 51 ==> RampDown()[k] == 255 - 5 * k
  {
    var r := RampDown();
    assert |r| > 50 by {
      assert 255 - 5 * |r| <= 0;
    }
    assert r[|r| - 1] > 0;
  }

  /** The intensities of one full pulse cycle. */
  function PulseIntensities(): seq<int>
  {
    RampUp() + RampDown()
  }

  /** The colours of one full pulse cycle, in the order they are shown. */
  function PulseColors(): seq<Bgr>
  {
    var xs := PulseIntensities();
    seq(|xs|, k requires 0 <= k < |xs| => ColorOf(xs[k]))
  }

  /** One pulse is a triangle wave of 102 steps: 5k on the way up to the peak
      255 at step 51, then 510 - 5k on the way down to 5. */
  lemma PulseShape()
    ensures |PulseIntensities()| == 102
    ensures forall k :: 0 <= k < 102 ==>
              PulseIntensities()[k] == if k <= 51 then 5 * k else 510 - 5 * k
  {
    RampUpShape();
    RampDownShape();
  }

  /** Neighbouring steps of a pulse differ by exactly 5, also across the
      wrap-around from the last step (5) to the first step of the next
      cycle (0), and every intensity lies within 0..255. */
  lemma PulseIsSmooth()
    ensures forall k :: 0 <= k < 102 ==> 0 <= PulseIntensities()[k] <= 255
    ensures forall k :: 0 < k < 102 ==>
              PulseIntensities()[k] - PulseIntensities()[k - 1] == (if k <= 51 then 5 else -5)
    ensures PulseIntensities()[101] - PulseIntensities()[0] == 5
  {
    PulseShape();
  }

  /** The colour of step k of a pulse. */
  lemma PulseColorAt(k: nat)
    requires k < 102
    ensures |PulseColors()| == 102
    ensures PulseColors()[k] == ColorOf(if k <= 51 then 5 * k else 510 - 5 * k)
  {
    PulseShape();
  }

  /** The first k colours of the triangle wave 5j up to step 51, 510 - 5j after. */
  function Triangle(k: nat): (cs: seq<Bgr>)
    ensures |cs| == k
  {
    seq(k, j requires 0 <= j < k => ColorOf(if j <= 51 then 5 * j else 510 - 5 * j))
  }

  /** One more step of the triangle appends that step's colour. */
  lemma TriangleSnoc(k: nat)
    ensures Triangle(k + 1) == Triangle(k) + [ColorOf(if k <= 51 then 5 * k else 510 - 5 * k)]
  {
    assert Triangle(k + 1)[k] == ColorOf(if k <= 51 then 5 * k else 510 - 5 * k);
  }

  /** A full triangle of 102 steps is exactly one pulse cycle. */
  lemma TriangleIsPulse()
    ensures Triangle(102) == PulseColors()
  {
    PulseColorAt(0);
    forall k | 0 <= k < 102 ensures Triangle(102)[k] == PulseColors()[k] {
      PulseColorAt(k);
    }
  }

  /** Every pulse colour is blue at the step's intensity, green at half of it
      rounded down, and no red. */
  lemma PulseColorsShape()
    ensures |PulseColors()| == 102
    ensures forall k :: 0 <= k < 102 ==>
              var c := PulseColors()[k];
              0 <= c.blue <= 255 && c.green == c.blue / 2 && c.red == 0
    ensures PulseColors()[0] == Bgr(0, 0, 0) && PulseColors()[51] == Bgr(255, 127, 0)
    ensures PulseColors()[101] == Bgr(5, 2, 0)
  {
    forall k | 0 <= k < 102
      ensures var c := PulseColors()[k]; 0 <= c.blue <= 255 && c.green == c.blue / 2 && c.red == 0
    {
      PulseColorAt(k);
    }
    PulseColorAt(0);
    PulseColorAt(51);
    PulseColorAt(101);
  }

  /** The shared colour that the renderer reads while the alarm is on. */
  class Bulb {
    var color: Bgr
    /** Every colour written to `color`, in order (for specification only). */
    ghost var shown: seq<Bgr>

    constructor ()
      ensures color == Bgr(0, 0, 0) && shown == []
    {
      color := Bgr(0, 0, 0);
      shown := [];
    }

    /** One pass of the pulse: the rising loop, then the falling loop, each
        writing the colour for every intensity of its range. */
    method PulseCycle()
      modifies this
      ensures shown == old(shown) + PulseColors()
      ensures color == Bgr(5, 2, 0)
    {
      var intensity := 0;
      ghost var k := 0;
      while intensity < 255
        invariant 0 <= k <= 51 && intensity == 5 * k
        invariant shown == old(shown) + Triangle(k)
        invariant k > 0 ==> color == Triangle(k)[k - 1]
      {
        color := ColorOf(intensity);
        shown := shown + [color];
        TriangleSnoc(k);
        intensity, k := intensity + 5, k + 1;
      }
      intensity := 255;
      while intensity > 0
        invariant 51 <= k <= 102 && intensity == 510 - 5 * k
        invariant shown == old(shown) + Triangle(k)
        invariant color == Triangle(k)[k - 1]
      {
        color := ColorOf(intensity);
        shown := shown + [color];
        TriangleSnoc(k);
        intensity, k := intensity - 5, k + 1;
      }
      TriangleIsPulse();
    }
  }
}
