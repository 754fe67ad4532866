/** The fan controller object pwmFan: the validated configuration, the
    fields derived from the curve at construction, and the state carried
    from one pass of the control loop to the next. */
module Fan {
  import opened Wrappers
  import opened FanCurve
  import opened Configuration
  import opened Smoothing
  import opened Hysteresis
  import opened Register

  /** How one pass of the control loop can fail: with a window length below
      one the window is empty again after the append and the pop, and the
      average divides by zero. */
  datatype LoopError = EmptyWindow

  class PwmFan {
    const curve: seq<Breakpoint>
    const interval: real
    const readings: int
    const minStep: int

    /** The curve temperatures, the number of segments and the two ends. */
    const temps: seq<real>
    const segments: int
    const minTemp: real
    const maxTemp: real

    /** The value written to the PWM register last (0 before any write). */
    var previousPwm: int
    /** The moving-average window, oldest sample first. */
    var samples: seq<real>

    /** Every temperature read so far, oldest first. */
    ghost var history: seq<real>
    /** Every value written to the PWM register so far, oldest first. */
    ghost var written: seq<int>

    /** The curve is well formed and the fields derived from it agree with it. */
    ghost predicate CurveValid() {
      && WellFormed(curve)
      && temps == Keys(curve)
      && segments == |temps| - 1
      && minTemp == temps[0]
      && maxTemp == temps[segments]
    }

    ghost predicate Valid()
      reads this
    {
      && CurveValid()
      && (readings >= 1 ==> samples == Latest(history, readings))
      && (readings < 1 ==> samples == [])
      && previousPwm == (if written == [] then 0 else written[|written| - 1])
      && 0 <= previousPwm <= RegisterMax
    }

    /** pwmFan.__init__ after validate has passed: the curve's derived fields
        are set up, nothing has been read or written yet. */
    constructor (config: Config)
      requires WellFormed(config.curve)
      ensures Valid()
      ensures curve == config.curve && interval == config.interval
      ensures readings == config.readings && minStep == config.minStep
      ensures previousPwm == 0 && samples == [] && history == [] && written == []
    {
      curve := config.curve;
      interval := config.interval;
      readings := config.readings;
      minStep := config.minStep;
      previousPwm := 0;
      samples := [];
      temps := Keys(config.curve);
      segments := |config.curve| - 1;
      minTemp := config.curve[0].0;
      maxTemp := config.curve[|config.curve| - 1].0;
      history := [];
      written := [];
    }

    /** pwmFan.getPwm: the register value for temperature `temp`, found by
        scanning the segments from the first. */
    method GetPwm(temp: real) returns (pwm: int)
      requires Valid()
      ensures pwm == PwmFor(curve, temp)
    {
      if temp < minTemp {
        return 0;
      }
      if temp > maxTemp {
        return RegisterMax;
      }
      var i := 0;
      while i < segments
        invariant 0 <= i <= segments
        invariant FirstSegment(curve, temp, i) == FirstSegment(curve, temp, 0)
      {
        if temp >= temps[i] && temp <= temps[i + 1] {
          // linear interpolation between the segment's two breakpoints
          var y := Interpolate(temps[i], curve[i].1, temps[i + 1], curve[i + 1].1, temp);
          assert FirstSegment(curve, temp, 0) == Some(i);
          return DutyToRegister(y);
        }
        i := i + 1;
      }
      assert FirstSegment(curve, temp, 0) == None;
      return RegisterMax;
    }

    /** The window update of one pass: the sample is appended and, when the
        window then holds more than `readings` samples, the oldest is popped. */
    method AddSample(temp: real)
      requires Valid()
      modifies this
      ensures Valid()
      ensures samples == Slide(old(samples), temp, readings)
      ensures history == old(history) + [temp]
      ensures previousPwm == old(previousPwm) && written == old(written)
    {
      if readings >= 1 {
        SlideKeepsLatest(history, temp, readings);
      }
      samples := samples + [temp];
      if |samples| > readings {
        samples := samples[1..];
      }
      history := history + [temp];
    }

    /** The minimum-step gate of one pass for the register value `pwm`: 0
        and 255 are always written, any other value only when it is at least
        minStep away from previousPwm; previousPwm follows every write. */
    method WritePwm(pwm: int) returns (d: Decision)
      requires Valid()
      requires 0 <= pwm <= RegisterMax
      modifies this
      ensures Valid()
      ensures d == Gate(old(previousPwm), pwm, minStep)
      ensures previousPwm == After(old(previousPwm), d)
      ensures written == old(written) + (if d.Write? then [d.value] else [])
      ensures samples == old(samples) && history == old(history)
    {
      if pwm == 0 {
        previousPwm := 0;
        written := written + [0];
        d := Write(0);
      } else if pwm == RegisterMax {
        previousPwm := RegisterMax;
        written := written + [RegisterMax];
        d := Write(RegisterMax);
      } else if Abs(previousPwm - pwm) >= minStep {
        previousPwm := pwm;
        written := written + [pwm];
        d := Write(pwm);
      } else {
        d := Suppress;
      }
    }

    /** One pass of the control loop for the temperature just read: slide
        the window, average it, look the average up on the curve and pass
        the result through the minimum-step gate. On Ok(Write(v)) the PWM
        register is written with v; on Ok(Suppress) nothing is written. */
    method Step(temp: real) returns (r: Result<Decision, LoopError>)
      requires Valid()
      modifies this
      ensures Valid()
      ensures history == old(history) + [temp]
      ensures samples == Slide(old(samples), temp, readings)
      ensures r.Err? <==> samples == []
      ensures r.Err? <==> readings < 1
      ensures r.Ok? ==> 1 <= |samples| <= readings
      ensures r.Ok? ==> r.value == Gate(old(previousPwm), PwmFor(curve, Mean(samples)), minStep)
      ensures written == old(written) + (if r.Ok? && r.value.Write? then [r.value.value] else [])
      ensures previousPwm == (if r.Ok? then After(old(previousPwm), r.value) else old(previousPwm))
    {
      AddSample(temp);
      if |samples| == 0 {
        return Err(EmptyWindow);
      }
      var avg := Mean(samples);
      var pwm := GetPwm(avg);
      var d := WritePwm(pwm);
      return Ok(d);
    }

    /** The first passes of pwmFan.run's endless loop, one per temperature
        in `temperatures`, stopping at the first pass that fails. Returns the
        decisions of the passes that completed. */
    method RunFor(temperatures: seq<real>) returns (decisions: seq<Decision>, failed: bool)
      requires Valid()
      modifies this
      ensures Valid()
      ensures failed <==> readings < 1 && temperatures != []
      ensures !failed ==> |decisions| == |temperatures| && history == old(history) + temperatures
      ensures failed ==> decisions == [] && history == old(history) + [temperatures[0]]
      ensures readings >= 1 ==>
                decisions == Run(curve, readings, minStep, old(samples), old(previousPwm), temperatures)
      ensures written == old(written) + Writes(decisions)
    {
      if readings < 1 {
        if temperatures == [] {
          return [], false;
        }
        var r := Step(temperatures[0]);
        return [], true;
      }
      decisions := Passes(temperatures);
      failed := false;
    }

    /** The passes of pwmFan.run's loop, one per temperature, with a window
        length of at least one, so that no pass fails. */
    method Passes(temperatures: seq<real>) returns (decisions: seq<Decision>)
      requires Valid() && readings >= 1
      modifies this
      ensures Valid()
      ensures history == old(history) + temperatures
      ensures decisions == Run(curve, readings, minStep, old(samples), old(previousPwm), temperatures)
      ensures written == old(written) + Writes(decisions)
    {
      decisions := [];
      var rest := temperatures;
      while rest != []
        invariant Valid()
        invariant |samples| <= readings
        invariant history + rest == old(history) + temperatures
        invariant written == old(written) + Writes(decisions)
        invariant decisions + Run(curve, readings, minStep, samples, previousPwm, rest)
                  == Run(curve, readings, minStep, old(samples), old(previousPwm), temperatures)
        decreases |rest|
      {
        ghost var window, previous, seen, logged := samples, previousPwm, history, written;
        var r := Step(rest[0]);
        var d := r.value;
        RunPass(curve, readings, minStep, window, previous, rest, decisions, d,
                Run(curve, readings, minStep, old(samples), old(previousPwm), temperatures));
        LogsPass(seen, rest, old(history) + temperatures, logged, old(written), decisions, d);
        decisions := decisions + [d];
        rest := rest[1..];
      }
    }
  }

  /** The decisions of successive passes over `temperatures`, starting from
      the window `window` and the last written value `previous`: each pass
      slides the window, and the gate decides on the register value of its
      mean, measured against the value written last. */
  function Run(curve: seq<Breakpoint>, readings: int, minStep: int, window: seq<real>,
               previous: int, temperatures: seq<real>): (ds: seq<Decision>)
    requires WellFormed(curve)
    requires 1 <= readings && |window| <= readings
    ensures |ds| == |temperatures|
    decreases |temperatures|
  {
    if temperatures == [] then []
    else
      var w := Slide(window, temperatures[0], readings);
      var d := Gate(previous, PwmFor(curve, Mean(w)), minStep);
      [d] + Run(curve, readings, minStep, w, After(previous, d), temperatures[1..])
  }

  /** A run is the decision of its first pass followed by the run over the
      remaining temperatures, from the state that pass leaves behind; so the
      decisions made so far, followed by the rest of the run, stay the whole
      run. */
  lemma RunPass(curve: seq<Breakpoint>, readings: int, minStep: int, window: seq<real>,
                previous: int, rest: seq<real>, decisions: seq<Decision>,
                d: Decision, whole: seq<Decision>)
    requires WellFormed(curve)
    requires 1 <= readings && |window| <= readings
    requires rest != []
    requires d == Gate(previous, PwmFor(curve, Mean(Slide(window, rest[0], readings))), minStep)
    requires decisions + Run(curve, readings, minStep, window, previous, rest) == whole
    ensures (decisions + [d]) + Run(curve, readings, minStep, Slide(window, rest[0], readings),
                                    After(previous, d), rest[1..]) == whole
  {
  }

  /** The two logs across one pass: the temperature read moves from the
      temperatures still to come to the history, and the pass's write, if
      any, joins the log of writes. */
  lemma LogsPass(seen: seq<real>, rest: seq<real>, all: seq<real>, logged: seq<int>,
                 written0: seq<int>, decisions: seq<Decision>, d: Decision)
    requires rest != [] && seen + rest == all
    requires logged == written0 + Writes(decisions)
    ensures (seen + [rest[0]]) + rest[1..] == all
    ensures logged + (if d.Write? then [d.value] else []) == written0 + Writes(decisions + [d])
  {
    assert (seen + [rest[0]]) + rest[1..] == seen + rest;
    WritesPass(decisions, d);
  }

  /** Building the controller: the configuration is validated first and the
      object is only made when it passes. */
  method NewPwmFan(raw: RawConfig) returns (r: Result<PwmFan, ConfigError>)
    ensures r.Ok? <==> Acceptable(raw)
    ensures r.Ok? ==> && fresh(r.value) && r.value.Valid()
                      && r.value.curve == Breakpoints(raw.curve.entries)
                      && r.value.interval == ToReal(raw.interval)
                      && r.value.readings == raw.readings.i
                      && r.value.minStep == raw.minStep.i
                      && r.value.previousPwm == 0 && r.value.samples == []
                      && r.value.history == [] && r.value.written == []
    ensures HeaderError(raw).Some? ==> r == Err(HeaderError(raw).value)
    ensures HeaderError(raw).None? && r.Err? ==>
              exists k: nat :: FirstFailing(raw.curve.entries, k)
                               && PairError(Previous(raw.curve.entries, k), raw.curve.entries[k].0,
                                            raw.curve.entries[k].1) == Some(r.error)
  {
    var checked := Validate(raw);
    match checked
    case Err(e) =>
      return Err(e);
    case Ok(config) =>
      var fan := new PwmFan(config);
      return Ok(fan);
  }
}
