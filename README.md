# cm4-pwm-fan: the fan-control decision logic, modelled in Dafny

`pwm.py` drives an EMC2301 fan controller from a Raspberry Pi CM4. The
class `pwmFan` holds a temperature -> duty-cycle curve. It validates that
curve at start-up, then loops forever. Each pass reads the CPU temperature
and averages it over a moving window. It looks the average up on the curve
by linear interpolation and scales the duty cycle (in %) to the 8-bit PWM
register. A minimum-step gate then decides whether that value is written.

This project models that decision logic and proves what the code and its
comments promise about it.

- `rounding.dfy` (module `Rounding`): Python 3's `round`, which rounds
  ties to the even neighbour, on exact reals.
- `fan_curve.dfy` (module `FanCurve`): the curve as a sequence of
  (temperature, duty) breakpoints in the dict's iteration order. It holds
  the segment search of `getPwm`, the interpolation and the scaling to the
  register. `PwmFor` is the register value `getPwm` returns.
- `configuration.dfy` (module `Configuration`): `validate`. Raw
  configuration values are `Int`, `Float` or `Other`, so that its
  `isinstance` checks keep their meaning and their order. `Validate` is a
  method with the same loop over the pairs and the same `previous`
  accumulator as the code.
- `smoothing.dfy` (module `Smoothing`): the sample window (append, then
  drop the oldest when over `readings`) and its mean.
- `hysteresis.dfy` (module `Hysteresis`): the minimum-step gate, with 0
  and 255 always written.
- `pwm_fan.dfy` (module `Fan`): the class `PwmFan` with the fields
  `__init__` sets up. `GetPwm` is the `while` loop of `getPwm`. `Step` is
  one pass of the loop in `run`, made of `AddSample` (the window) and
  `WritePwm` (the gate). `RunFor` is a bounded number of passes, and
  `Run` is the sequence of decisions those passes make.
  `NewPwmFan` is construction with validation.
- `register.dfy` (module `Register`): the largest value of the 8-bit PWM
  register, shared by the curve and the gate.
- `wrappers.dfy` (module `Wrappers`): `Option` and `Result`.

Two ghost logs make the loop's state checkable. `history` holds every
temperature read and `written` every value written to the PWM register. The
object invariant `PwmFan.Valid` says two things about them. The window
holds the latest `readings` entries of `history`. `previousPwm` is the last
entry of `written`, or 0 before any write.

Temperatures and duty cycles are Dafny `real`s, so arithmetic is exact.
Python's `round` is modelled as round-half-to-even on those reals.

Points where the model follows the code's exact behaviour rather than
a looser reading of it:
- `validate` makes its type checks (`interval`, `readings`, `minStep`)
  before it checks the number of pairs. `Validate` keeps that order.
- Above the curve `getPwm` returns the register value 255 directly. It is
  not a duty of 100% passed on to the scaling.
- The result of the scaling is not clamped. `DutyToRegister` proves that
  no clamp is needed for a duty in [0, 100].
- `validate` does not check that `readings` is at least 1. With
  `readings` below 1, the first pass of the loop appends a sample and pops
  it again, so `sum(self.samples)/len(self.samples)` divides by zero.
  `Step` returns `Err(EmptyWindow)` exactly in that case.

## Model

| member | source | states |
|---|---|---|
| `Rounding.Round` | pwm.py:127 | the result is within 1/2 of x, and on a tie it is even (Python 3 `round`) |
| `Rounding.RoundIsUnique` | pwm.py:127 | any integer within 1/2 of x that is even on a tie equals `Round(x)`, so the two properties define rounding |
| `Rounding.RoundMonotone` | pwm.py:127 | x <= y implies Round(x) <= Round(y) |
| `Rounding.RoundInteger` | pwm.py:127 | an integer rounds to itself |
| `Rounding.RoundTies` | pwm.py:127 | 0.5, 1.5, 2.5 and 84.5 round to 0, 2, 2 and 84 |
| `FanCurve.Keys` | pwm.py:87 | the temperature list has one entry per breakpoint, in curve order |
| `FanCurve.FirstSegment` | pwm.py:116-129 | the scan from `from` returns the first enclosing segment i (temps[i] <= t <= temps[i+1]) with no enclosing one before it, or None when no segment from `from` on encloses t |
| `FanCurve.Interpolate` | pwm.py:124-126 | the slope-intercept value `m * t + b` lies on the line through (x1, y1) and (x2, y2): (y - y1) * (x2 - x1) == (y2 - y1) * (t - x1); `InterpolateBetween` and `InterpolateEnds` state where it lies on a segment |
| `FanCurve.DutyToRegister` | pwm.py:127 | `round(duty / 100 * 255)` lies in [0, 255] for every duty in [0, 100] |
| `FanCurve.PwmFor` | pwm.py:107-132 | getPwm's value on a validated curve lies in [0, 255]; below the first key it is 0 and above the last key it is 255, whatever the end duties are |
| `FanCurve.InterpolateBetween` | pwm.py:119-126 | on its segment the interpolated duty lies between the duties at the segment's two ends |
| `FanCurve.InterpolateEnds` | pwm.py:119-126 | the line through (x1, y1) and (x2, y2) gives y1 at x1 and y2 at x2 |
| `FanCurve.SegmentFoundFrom` | pwm.py:116-129 | from any breakpoint at or below t, the scan finds a segment when t is not above the last key |
| `FanCurve.SegmentFound` | pwm.py:116-132 | for a validated curve and temps[0] <= t <= temps[last], the scan finds a segment, so the final `return 255` is unreachable |
| `FanCurve.PwmInside` | pwm.py:116-127 | inside the curve the result is the scaled interpolation on the first enclosing segment, and that duty lies between the segment's end duties |
| `FanCurve.PwmAtBreakpoint` | pwm.py:118-127 | at a breakpoint's temperature the result is that breakpoint's duty scaled, `round(curve[x] / 100 * 255)` |
| `FanCurve.FractionOfSegment` | pwm.py:124-126 | a point inside a segment lies a fraction in [0, 1] of the way along it |
| `FanCurve.FractionOf` | pwm.py:124-126 | a fraction in [0, 1] of a duty difference lies between 0 and that difference |
| `FanCurve.DutyToRegisterEnds` | pwm.py:30-32 | 0% scales to 0 and 100% to 255 |
| `FanCurve.DutyToRegisterMonotone` | pwm.py:127 | a larger duty never gives a smaller register value |
| `FanCurve.ShippedCurveExamples` | pwm.py:14-21 | the shipped curve is valid; it gives 0 at 20 degrees and 255 at 80; at 46 degrees it gives 84, from 33% on the 45-47 segment |
| `Configuration.PairError` | pwm.py:182-198 | a pair passes one loop pass exactly when key and value are numeric, both lie in [0, 100] and the key is above `previous`; each failure names the first failing check in the code's order: a non-numeric key, then a non-numeric value, then a key out of range, then a value out of range, then a key equal to or below `previous` (not sorted) |
| `Configuration.HeaderError` | pwm.py:166-179 | the checks before the loop pass exactly when the curve is a dict, interval is numeric, readings and minStep are ints and there are at least 2 pairs; each failure names the first failing check in the code's order, so a curve with fewer than 2 pairs is reported only once all three type checks pass |
| `Configuration.Previous` | pwm.py:181-198 | `previous` starts at -1, below every key in range, so the first pair is never out of order; afterwards it is the key of the pair before |
| `Configuration.Acceptable` | pwm.py:165-198 | validate's acceptance condition, written independently of the check order; `Validate` succeeds exactly when it holds, `AcceptableIff` relates it to the checks and `AcceptableIsWellFormed` shows it gives a well-formed curve |
| `Configuration.AcceptableIsWellFormed` | pwm.py:4-7 | an acceptable configuration's curve has at least two breakpoints in [0, 100] with keys strictly ascending between any two |
| `Configuration.Breakpoints` | pwm.py:87 | the accepted curve has one breakpoint per pair, with the pair's key and value as numbers |
| `Configuration.Validate` | pwm.py:165-198 | succeeds exactly for acceptable configurations and then yields a well-formed curve; a failure before the loop reports the first failing header check; a failure in the loop reports the error of the first failing pair |
| `Configuration.AcceptableIff` | pwm.py:165-198 | acceptable iff every header check and every per-pair check passes |
| `Configuration.AllPassingIsWellFormed` | pwm.py:181-198 | when every pair passes, the curve has at least 2 breakpoints in range with strictly ascending keys |
| `Configuration.AscendingStepwise` | pwm.py:195-198 | keys ascending from each pair to the next ascend between any two pairs |
| `Configuration.AscendingBetween` | pwm.py:195-198 | the same, for one pair of positions |
| `Smoothing.Latest` | pwm.py:140-143 | the last n entries of a history are a suffix of it, of length min(n, its length) |
| `Smoothing.Slide` | pwm.py:140-143 | after a sample the newest sample is last, and the window has between 1 and `readings` samples when it had at most `readings` before |
| `Smoothing.SlideKeepsLatest` | pwm.py:140-143 | a window holding the latest `readings` samples still does so after the next sample: first in, first out |
| `Smoothing.Sum` | pwm.py:145 | Python's `sum` over the window; `SumDropOldest` and `SumBounds` state its properties |
| `Smoothing.SumDropOldest` | pwm.py:143-145 | popping the oldest sample takes exactly that sample off the sum |
| `Smoothing.Mean` | pwm.py:145 | `sum(samples) / len(samples)`: the mean times the number of samples is their sum; `MeanWithin` and `MeanOfOne` state its range |
| `Smoothing.SumBounds` | pwm.py:145 | the sum of n samples in [lo, hi] lies in [n*lo, n*hi] |
| `Smoothing.MeanWithin` | pwm.py:145 | the mean lies within the range of the window's samples |
| `Smoothing.MeanOfOne` | pwm.py:145 | the mean of a single sample is that sample |
| `Smoothing.SlideExample` | pwm.py:140-145 | a full window [10, 20, 30] of length 3 becomes [20, 30, 40] after 40; its mean is 30 |
| `Hysteresis.Gate` | pwm.py:148-161 | the decision writes the candidate itself or nothing; it suppresses exactly when the candidate is neither 0 nor 255 and is less than minStep from the previous value |
| `Hysteresis.Writes` | pwm.py:151-161 | the register writes of a sequence of decisions, in order, one per `Write` and none per `Suppress` |
| `Hysteresis.WritesPass` | pwm.py:151-161 | one more decision appends its write, if any, to the writes made so far |
| `Hysteresis.GateTracks` | pwm.py:159-161 | after the gate the register equals the candidate or is within minStep of it |
| `Hysteresis.GateSettles` | pwm.py:148-161 | gating the same candidate a second time leaves the register as it is |
| `Hysteresis.GateInRange` | pwm.py:148-161 | the register stays in [0, 255] when previous value and candidate do |
| `Hysteresis.GateExamples` | pwm.py:148-161 | with previous 100 and minStep 3, candidate 101 is suppressed and 103 written; with previous 50 and minStep 20, 0 and 255 are written |
| `Fan.PwmFan.constructor` | pwm.py:39-96 | a validated configuration gives a valid object with previousPwm 0, no samples and the curve's keys, segment count, min and max |
| `Fan.PwmFan.GetPwm` | pwm.py:107-132 | the `while` scan returns `PwmFor(curve, temp)` |
| `Fan.PwmFan.AddSample` | pwm.py:140-143 | the sample is appended and the oldest popped when the window exceeds `readings`; the window still holds the latest `readings` temperatures read, and previousPwm is untouched |
| `Fan.PwmFan.WritePwm` | pwm.py:148-161 | the branches on 0, 255 and the minimum step make exactly the decision of `Gate`; previousPwm and the write log change exactly on a write, to the value written |
| `Fan.PwmFan.Step` | pwm.py:140-161 | one pass slides the window and keeps the object invariant; it fails exactly when `readings` < 1; otherwise it returns the gate's decision for the mean's register value; previousPwm and the write log change only on a write |
| `Fan.PwmFan.RunFor` | pwm.py:139-163 | a bounded run consumes every temperature, or stops at the first one when `readings` < 1; otherwise its decisions are `Run` of the starting window and previous value; the write log grows by exactly the writes of the decisions; the object invariant holds throughout |
| `Fan.PwmFan.Passes` | pwm.py:139-161 | with `readings` >= 1, the `while` loop's passes read every temperature into the history, return exactly the decisions of `Run`, and log exactly their writes |
| `Fan.Run` | pwm.py:139-161 | one decision per temperature: each pass slides the window, and the gate decides on the register value of its mean against the value written last |
| `Fan.RunPass` | pwm.py:139-161 | a run is the first pass's decision followed by the run from the state that pass leaves |
| `Fan.LogsPass` | pwm.py:140-161 | across one pass the temperature read moves from the temperatures to come to the history, and the pass's write joins the write log |
| `Fan.NewPwmFan` | pwm.py:39-44 | the object is made exactly when the configuration is acceptable, with the configuration's curve, interval, readings and minStep, previousPwm 0, an empty window and empty logs; otherwise the error is the one `Validate` reports |

## Left out

- SMBus I/O (`updateReg`, pwm.py:98-99) is not modelled. A write to the PWM register appears as `Write(v)` in the returned decision and as an entry of the ghost log `written`.
- The three set-up writes at the start of `run` (pwm.py:135-137) and the register constants of `__init__` (pwm.py:46-78) are left out: they are fixed hardware configuration, not decisions.
- `getCpuTemp` (pwm.py:101-105) reads a sysfs file. Each temperature is a parameter of `Step` or `RunFor` instead.
- `sleep(self.interval)` and the endless `while True` (pwm.py:139, 163) are left out. `Step` is one pass and `RunFor` a finite number of passes. `interval` is only type-checked and stored.
- The script at module level and its exception handling (pwm.py:200-206) are process plumbing. A raised configuration error is an `Err` result; the division by zero of a pass is `Err(EmptyWindow)`.
- Python's `isinstance` is modelled as the three kinds `Int`, `Float` and `Other`. That `bool` counts as `int` in Python is not modelled.
- Floating point is not modelled: arithmetic is exact on reals. Rounding error in the interpolation and NaN or infinite keys and values are out of scope (a NaN passes every comparison in `validate` as written).
- A dict cannot hold two equal keys; the sequence of pairs can. A repeated key fails the ordering check, as a descending key does.
- `stress.py` is not part of this model: it launches a load generator, reads clocks and registers and writes a CSV file, and makes no fan-control decision.
- Smoothing.Slide: its own contract states the length bound and the newest-last property only; the first-in-first-out property is stated by `Smoothing.SlideKeepsLatest`.
