/** The alarm state machine that the frame loop runs once per frame: the
    alarm switches on when the frame shows stress, the alarm is off and
    strictly more than the cooldown has passed since the last alert; it
    switches off on the first frame without stress. Timestamps are abstract
    real seconds supplied by the caller. */
module Alarm {

  /** Minimum number of seconds between two alert activations. */
  const AlertCooldown: real := 30.0

  datatype AlarmState = AlarmState(active: bool, lastAlertTime: real)

  /** The state before the first frame: alarm off, last alert at time 0. */
  const Initial: AlarmState := AlarmState(false, 0.0)

  /** What the state machine consumes for one frame. */
  datatype Tick = Tick(stressDetected: bool, now: real)

  /** The activation condition; when it holds the alert effects are started. */
  predicate Fires(s: AlarmState, t: Tick)
  {
    t.stressDetected && !s.active && t.now - s.lastAlertTime > AlertCooldown
  }

  /** One frame's update: first the activation test, then the switch-off test. */
  function Next(s: AlarmState, t: Tick): (r: AlarmState)
    ensures r.active ==> t.stressDetected
    ensures r.active <==> Fires(s, t) || (s.active && t.stressDetected)
    ensures r.lastAlertTime == (if Fires(s, t) then t.now else s.lastAlertTime)
    ensures r.lastAlertTime != s.lastAlertTime ==> !s.active && r.active && r.lastAlertTime == t.now
  {
    var armed := if Fires(s, t) then AlarmState(true, t.now) else s;
    if !t.stressDetected && armed.active then armed.(active := false) else armed
  }

  /** The cooldown comparison is strict: exactly the cooldown after the last
      alert is still too early. */
  lemma ExactCooldownDoesNotFire(s: AlarmState, t: Tick)
    requires t.now == s.lastAlertTime + AlertCooldown
    ensures !Fires(s, t) && Next(s, t).lastAlertTime == s.lastAlertTime
  {
  }

  /** Switching off ignores the cooldown: a frame without stress leaves the
      alarm off whatever the state was. */
  lemma CalmFrameSwitchesOff(s: AlarmState, now: real)
    ensures Next(s, Tick(false, now)) == s.(active := false)
  {
  }

  /** The state after a whole sequence of frames. */
  function Run(s: AlarmState, ticks: seq<Tick>): AlarmState
    decreases |ticks|
  {
    if ticks == [] then s else Next(Run(s, ticks[..|ticks| - 1]), ticks[|ticks| - 1])
  }

  /** The timestamps at which the alarm was activated (alert effects started)
      over a sequence of frames, in order. */
  function Activations(s: AlarmState, ticks: seq<Tick>): seq<real>
    decreases |ticks|
  {
    if ticks == [] then []
    else
      var before := ticks[..|ticks| - 1];
      var t := ticks[|ticks| - 1];
      Activations(s, before) + (if Fires(Run(s, before), t) then [t.now] else [])
  }

  /** Extending a run by one frame applies one more update and records one
      more activation when that frame fires. */
  lemma RunSnoc(s: AlarmState, ticks: seq<Tick>, t: Tick)
    ensures Run(s, ticks + [t]) == Next(Run(s, ticks), t)
    ensures Activations(s, ticks + [t])
         == Activations(s, ticks) + (if Fires(Run(s, ticks), t) then [t.now] else [])
  {
    assert (ticks + [t])[..|ticks|] == ticks;
  }

  /** The last alert time after a run is the last activation of the run, or
      the starting one when nothing fired. */
  lemma {:induction false} RunLastAlert(s: AlarmState, ticks: seq<Tick>)
    ensures var acts := Activations(s, ticks);
      Run(s, ticks).lastAlertTime == if acts == [] then s.lastAlertTime else acts[|acts| - 1]
    decreases |ticks|
  {
    if ticks != [] {
      RunLastAlert(s, ticks[..|ticks| - 1]);
    }
  }

  /** Cooldown spacing: the first activation comes more than the cooldown
      after the starting alert time, and each later one more than the
      cooldown after the one before it. This holds even if the supplied
      clock goes backwards. */
  lemma {:induction false} ActivationsSpaced(s: AlarmState, ticks: seq<Tick>)
    ensures var acts := Activations(s, ticks);
      (|acts| > 0 ==> acts[0] - s.lastAlertTime > AlertCooldown)
      && forall i :: 0 < i < |acts| ==> acts[i] - acts[i - 1] > AlertCooldown
    decreases |ticks|
  {
    if ticks != [] {
      var before := ticks[..|ticks| - 1];
      ActivationsSpaced(s, before);
      RunLastAlert(s, before);
    }
  }

  /** Any two activations of a run are separated by more than the cooldown
      for each activation between them: k activations later, more than k
      cooldowns have passed. */
  lemma {:induction false} ActivationsFarApart(s: AlarmState, ticks: seq<Tick>, i: nat, j: nat)
    requires i < j < |Activations(s, ticks)|
    ensures Activations(s, ticks)[j] - Activations(s, ticks)[i] > (j - i) as real * AlertCooldown
    decreases j - i
  {
    ActivationsSpaced(s, ticks);
    if j > i + 1 {
      ActivationsFarApart(s, ticks, i, j - 1);
    }
  }

  /** Any two activations of a run lie more than the cooldown apart. */
  lemma ActivationsPairwiseSpaced(s: AlarmState, ticks: seq<Tick>)
    ensures var acts := Activations(s, ticks);
      forall i, j :: 0 <= i < j < |acts| ==> acts[j] - acts[i] > AlertCooldown
  {
    var acts := Activations(s, ticks);
    forall i, j | 0 <= i < j < |acts| ensures acts[j] - acts[i] > AlertCooldown {
      ActivationsFarApart(s, ticks, i, j);
    }
  }

  /** After any non-empty run, an active alarm means the last frame showed
      stress; the alarm never outlives the frame it was raised on. */
  lemma RunActiveOnlyUnderStress(s: AlarmState, ticks: seq<Tick>)
    requires ticks != []
    ensures Run(s, ticks).active ==> ticks[|ticks| - 1].stressDetected
  {
  }

  /** While the alarm stays on, nothing fires again and the alert time is kept:
      the effects are started once per activation. */
  lemma NoRefireWhileActive(s: AlarmState, t: Tick)
    requires s.active
    ensures !Fires(s, t) && Next(s, t).lastAlertTime == s.lastAlertTime
  {
  }
}
