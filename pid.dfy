/** The asynchronous PID controller meant to drive the focus motor.  Its
    state is the error of the last update, the running integral of the
    error over time, and the time of the last update; the clock reading is
    a parameter of each update. */
module Pid {

  /** The gains and the target; nothing in the controller changes them */
  datatype Gains = Gains(kp: real, ki: real, kd: real, setpoint: real)

  /** The three fields an update rewrites */
  datatype PidState = PidState(previousError: real, integral: real, previousTime: real)

  /** One call of update: the measured value and the clock when it ran */
  datatype Reading = Reading(measured: real, time: real)

  /** The output of one update and the state it leaves */
  datatype Outcome = Outcome(output: real, next: PidState)

  /** The setpoint a controller gets when none is given */
  const DefaultSetpoint: real := 0.0

  /** A controller created at time `now` has no history. */
  function Initial(now: real): PidState
  {
    PidState(0.0, 0.0, now)
  }

  /** How far the measurement is below the setpoint */
  function Error(g: Gains, measured: real): (e: real)
    ensures measured + e == g.setpoint
    ensures e == 0.0 <==> measured == g.setpoint
  {
    g.setpoint - measured
  }

  /** The rate of change of the error, or 0 when the clock has not moved
      forward since the last update */
  function Derivative(error: real, previousError: real, dt: real): (d: real)
    ensures dt <= 0.0 ==> d == 0.0
    ensures dt > 0.0 ==> d * dt == error - previousError
  {
    if dt > 0.0 then (error - previousError) / dt else 0.0
  }

  /** The error times the time elapsed between two clock readings: what
      one update adds to the integral */
  function Accrued(error: real, from: real, to: real): real
  {
    error * (to - from)
  }

  /** The state one update leaves: its error, the integral grown by the
      error over the elapsed time, and its clock reading */
  function Next(g: Gains, s: PidState, r: Reading): PidState
  {
    var error := Error(g, r.measured);
    PidState(error, s.integral + Accrued(error, s.previousTime, r.time), r.time)
  }

  /** The output of one update: the proportional term, the integral term on
      the grown integral, and the derivative term */
  function Output(g: Gains, s: PidState, r: Reading): real
  {
    var dt := r.time - s.previousTime;
    var error := Error(g, r.measured);
    var p := g.kp * error;
    var i := g.ki * Next(g, s, r).integral;
    var d := g.kd * Derivative(error, s.previousError, dt);
    p + i + d
  }

  /** One update */
  function Step(g: Gains, s: PidState, r: Reading): Outcome
  {
    Outcome(Output(g, s, r), Next(g, s, r))
  }

  /** The state after a sequence of updates, in order */
  function Run(g: Gains, s: PidState, rs: seq<Reading>): PidState
    decreases |rs|
  {
    if |rs| == 0 then s else Next(g, Run(g, s, rs[..|rs| - 1]), rs[|rs| - 1])
  }

  /** The clock of the last update, or `t0` when there was none */
  function LastTime(t0: real, rs: seq<Reading>): real
  {
    if |rs| == 0 then t0 else rs[|rs| - 1].time
  }

  /** The error summed over the readings, each reading's error weighted by
      the time since the update before it */
  function ErrorArea(g: Gains, t0: real, rs: seq<Reading>): real
    decreases |rs|
  {
    if |rs| == 0 then 0.0
    else
      var before := rs[..|rs| - 1];
      ErrorArea(g, t0, before)
        + Accrued(Error(g, rs[|rs| - 1].measured), LastTime(t0, before), rs[|rs| - 1].time)
  }

  /** Each update adds exactly error times elapsed time to the integral,
      remembers the error and the clock, and outputs P + I + D with
      I taken on the new integral. */
  lemma StepTerms(g: Gains, s: PidState, r: Reading)
    ensures var e, dt := g.setpoint - r.measured, r.time - s.previousTime;
      var o := Step(g, s, r);
      && o.next.integral - s.integral == e * dt
      && o.next.previousError == e
      && o.next.previousTime == r.time
      && o.output == g.kp * e + g.ki * o.next.integral + g.kd * Derivative(e, s.previousError, dt)
  {
  }

  /** After any sequence of updates the integral has grown by the error
      area and the controller remembers the last clock reading. */
  lemma {:induction false} RunIntegral(g: Gains, s: PidState, rs: seq<Reading>)
    ensures Run(g, s, rs).integral == s.integral + ErrorArea(g, s.previousTime, rs)
    ensures Run(g, s, rs).previousTime == LastTime(s.previousTime, rs)
    decreases |rs|
  {
    if |rs| > 0 {
      RunIntegral(g, s, rs[..|rs| - 1]);
    }
  }

  /** After a non-empty sequence of updates the remembered error is the
      last reading's distance from the setpoint. */
  lemma RunRemembersLastError(g: Gains, s: PidState, rs: seq<Reading>)
    requires |rs| > 0
    ensures Run(g, s, rs).previousError == g.setpoint - rs[|rs| - 1].measured
  {
  }

  /** While the measurement sits at a constant value, the error area is that
      error times the total time elapsed: the integral telescopes. */
  lemma {:induction false} ConstantErrorArea(g: Gains, t0: real, rs: seq<Reading>, m: real)
    requires forall k :: 0 <= k < |rs| ==> rs[k].measured == m
    ensures ErrorArea(g, t0, rs) == Accrued(Error(g, m), t0, LastTime(t0, rs))
    decreases |rs|
  {
    if |rs| > 0 {
      var before := rs[..|rs| - 1];
      ConstantErrorArea(g, t0, before, m);
      Telescope(Error(g, m), t0, LastTime(t0, before), rs[|rs| - 1].time);
    }
  }

  lemma Telescope(e: real, a: real, b: real, c: real)
    ensures Accrued(e, a, b) + Accrued(e, b, c) == Accrued(e, a, c)
  {
  }

  /** A controller that sits exactly at its setpoint keeps its integral, and
      with no remembered error its output is the integral term alone. */
  lemma AtSetpoint(g: Gains, s: PidState, r: Reading)
    requires r.measured == g.setpoint
    ensures Step(g, s, r).next.integral == s.integral
    ensures s.previousError == 0.0 ==> Step(g, s, r).output == g.ki * s.integral
  {
  }

  /** With zero integral and derivative gains the controller is purely
      proportional. */
  lemma ProportionalOnly(g: Gains, s: PidState, r: Reading)
    requires g.ki == 0.0 && g.kd == 0.0
    ensures Step(g, s, r).output == g.kp * (g.setpoint - r.measured)
  {
  }

  /** Two updates at the same clock reading: the second adds nothing to the
      integral and has no derivative term. */
  lemma SameTimeNoDerivative(g: Gains, s: PidState, r: Reading)
    requires s.previousTime == r.time
    ensures Step(g, s, r).next.integral == s.integral
    ensures Step(g, s, r).output == g.kp * (g.setpoint - r.measured) + g.ki * s.integral
  {
  }

  class AsynchronousPID {
    const kp: real
    const ki: real
    const kd: real
    const setpoint: real
    var previousError: real
    var integral: real
    var previousTime: real

    /** `now` is the clock reading at construction; the source's setpoint
        defaults to DefaultSetpoint. */
    constructor (kp: real, ki: real, kd: real, setpoint: real, now: real)
      ensures Settings() == Gains(kp, ki, kd, setpoint)
      ensures State() == Initial(now)
    {
      this.kp := kp;
      this.ki := ki;
      this.kd := kd;
      this.setpoint := setpoint;
      previousError := 0.0;
      integral := 0.0;
      previousTime := now;
    }

    function Settings(): Gains
    {
      Gains(kp, ki, kd, setpoint)
    }

    function State(): PidState
      reads this
    {
      PidState(previousError, integral, previousTime)
    }

    /** One update at clock `currentTime`; the gains and setpoint are
        constants, so only the three state fields change. */
    method Update(measuredValue: real, currentTime: real) returns (output: real)
      modifies this
      ensures Step(Settings(), old(State()), Reading(measuredValue, currentTime))
        == Outcome(output, State())
    {
      var dt := currentTime - previousTime;
      var error := setpoint - measuredValue;
      var p := kp * error;
      integral := integral + error * dt;
      var i := ki * integral;
      var derivative := if dt > 0.0 then (error - previousError) / dt else 0.0;
      var d := kd * derivative;
      output := p + i + d;
      previousError := error;
      previousTime := currentTime;
    }
  }

  /** The focus-motor movement for a control signal */
  function AdjustFocus(controlSignal: real, scaleFactor: real): (movement: real)
    ensures movement == 0.0 <==> controlSignal == 0.0 || scaleFactor == 0.0
    ensures scaleFactor > 0.0 ==> (movement > 0.0 <==> controlSignal > 0.0)
    ensures scaleFactor > 0.0 ==> (movement < 0.0 <==> controlSignal < 0.0)
  {
    controlSignal * scaleFactor
  }

  /** The movement is linear in the control signal. */
  lemma AdjustFocusLinear(a: real, b: real, scaleFactor: real)
    ensures AdjustFocus(a + b, scaleFactor) == AdjustFocus(a, scaleFactor) + AdjustFocus(b, scaleFactor)
  {
  }
}
