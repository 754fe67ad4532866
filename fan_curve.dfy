/** The fan curve of pwmFan: temperature -> duty-cycle breakpoints, the
    segment search of getPwm, linear interpolation on the segment found and
    the scaling of a duty cycle in percent to the 8-bit PWM register. */
module FanCurve {
  import opened Wrappers
  import opened Rounding
  import opened Register

  /** One breakpoint of the curve: (CPU temperature in degrees, duty cycle in %).
      The curve is the source's dict in its iteration order. */
  type Breakpoint = (real, real)

  predicate InRange(v: real) {
    0.0 <= v <= 100.0
  }

  /** The list of curve temperatures (`list(self.curve)`). */
  function Keys(curve: seq<Breakpoint>): (keys: seq<real>)
    ensures |keys| == |curve|
    ensures forall i :: 0 <= i < |curve| ==> keys[i] == curve[i].0
  {
    seq(|curve|, i requires 0 <= i < |curve| => curve[i].0)
  }

  /** A curve that passes validation: at least two breakpoints, every
      temperature and duty in [0, 100], temperatures strictly ascending. */
  predicate WellFormed(curve: seq<Breakpoint>) {
    && |curve| >= 2
    && (forall i :: 0 <= i < |curve| ==> InRange(curve[i].0) && InRange(curve[i].1))
    && (forall i, j :: 0 <= i < j < |curve| ==> curve[i].0 < curve[j].0)
  }

  /** Segment i runs from breakpoint i to breakpoint i + 1 and contains t,
      both ends included. */
  predicate Encloses(curve: seq<Breakpoint>, i: int, t: real) {
    0 <= i < |curve| - 1 && curve[i].0 <= t <= curve[i + 1].0
  }

  /** The segment getPwm settles on when it scans from index `from`: the
      first enclosing one, or None when it runs off the end. */
  function FirstSegment(curve: seq<Breakpoint>, t: real, from: nat): (r: Option<nat>)
    ensures r.Some? ==> from <= r.value && Encloses(curve, r.value, t)
    ensures r.Some? ==> forall j :: from <= j < r.value ==> !Encloses(curve, j, t)
    ensures r.None? ==> forall j :: from <= j ==> !Encloses(curve, j, t)
    decreases |curve| - from
  {
    if from + 1 >= |curve| then None
    else if Encloses(curve, from, t) then Some(from)
    else FirstSegment(curve, t, from + 1)
  }

  /** The straight line through (x1, y1) and (x2, y2) evaluated at t, in the
      slope-intercept form getPwm computes. */
  function Interpolate(x1: real, y1: real, x2: real, y2: real, t: real): (y: real)
    requires x1 != x2
    ensures (y - y1) * (x2 - x1) == (y2 - y1) * (t - x1)
  {
    var m := (y2 - y1) / (x2 - x1);
    var b := y1 - m * x1;
    assert m * (x2 - x1) == y2 - y1;
    assert m * t + b - y1 == m * (t - x1);
    m * t + b
  }

  /** Scales a duty cycle in % to the register: `round(y / 100 * 255)`.
      Every duty in [0, 100] lands in the register's range [0, 255]. */
  function DutyToRegister(duty: real): (r: int)
    ensures InRange(duty) ==> 0 <= r <= RegisterMax
  {
    var scaled := duty / 100.0 * 255.0;
    if InRange(duty) then
      RoundMonotone(0.0, scaled);
      RoundMonotone(scaled, 255.0);
      RoundInteger(0);
      RoundInteger(255);
      Round(scaled)
    else
      Round(scaled)
  }

  /** The register value getPwm returns for temperature t on a validated
      curve: below the curve off, above it full speed, inside it the
      interpolated duty scaled to the register. */
  function PwmFor(curve: seq<Breakpoint>, t: real): (r: int)
    requires WellFormed(curve)
    ensures 0 <= r <= RegisterMax
    ensures t < curve[0].0 ==> r == 0
    ensures t > curve[|curve| - 1].0 ==> r == RegisterMax
  {
    if t < curve[0].0 then 0
    else if t > curve[|curve| - 1].0 then RegisterMax
    else match FirstSegment(curve, t, 0)
      case Some(i) =>
        var y := Interpolate(curve[i].0, curve[i].1, curve[i + 1].0, curve[i + 1].1, t);
        InterpolateBetween(curve[i].0, curve[i].1, curve[i + 1].0, curve[i + 1].1, t);
        DutyToRegister(y)
      case None => RegisterMax
  }

  predicate Between(y: real, a: real, b: real) {
    (a <= y <= b) || (b <= y <= a)
  }

  /** On its segment the line stays between the duties at the two ends. */
  lemma InterpolateBetween(x1: real, y1: real, x2: real, y2: real, t: real)
    requires x1 < x2 && x1 <= t <= x2
    ensures Between(Interpolate(x1, y1, x2, y2, t), y1, y2)
  {
    var w := x2 - x1;
    var m := (y2 - y1) / w;
    var s := (t - x1) / w;
    FractionOfSegment(t - x1, w);
    assert Interpolate(x1, y1, x2, y2, t) == y1 + m * (t - x1);
    assert m * (t - x1) == (y2 - y1) * s;
    FractionOf(y2 - y1, s);
  }

  /** How far along its segment of width w a point at distance a lies. */
  lemma FractionOfSegment(a: real, w: real)
    requires 0.0 < w && 0.0 <= a <= w
    ensures 0.0 <= a / w <= 1.0
  {
    var q := a / w;
    assert q * w == a;
    assert (1.0 - q) * w == w - a;
    assert 0.0 <= q by {
      assert q * w >= 0.0;
    }
  }

  /** A fraction s in [0, 1] of d lies between 0 and d. */
  lemma FractionOf(d: real, s: real)
    requires 0.0 <= s <= 1.0
    ensures Between(d * s, 0.0, d)
  {
    if d >= 0.0 {
      assert d * s <= d * 1.0;
    } else {
      assert d * 1.0 <= d * s;
    }
  }

  /** The line passes through both breakpoints of its segment. */
  lemma InterpolateEnds(x1: real, y1: real, x2: real, y2: real)
    requires x1 != x2
    ensures Interpolate(x1, y1, x2, y2, x1) == y1
    ensures Interpolate(x1, y1, x2, y2, x2) == y2
  {
    var m := (y2 - y1) / (x2 - x1);
    assert m * (x2 - x1) == y2 - y1;
    assert m * x2 + (y1 - m * x1) == y1 + m * (x2 - x1);
  }

  /** Scanning from a breakpoint at or below t, on a well-formed curve and
      with t not above the last breakpoint, always finds a segment. */
  lemma {:induction false} SegmentFoundFrom(curve: seq<Breakpoint>, t: real, from: nat)
    requires WellFormed(curve)
    requires from < |curve| - 1
    requires curve[from].0 <= t <= curve[|curve| - 1].0
    ensures FirstSegment(curve, t, from).Some?
    decreases |curve| - from
  {
    if !Encloses(curve, from, t) {
      assert t > curve[from + 1].0;
      if from + 1 < |curve| - 1 {
        SegmentFoundFrom(curve, t, from + 1);
      }
    }
  }

  /** The search of getPwm never falls through to its final `return 255`
      when t lies within the curve: some segment always encloses t. */
  lemma SegmentFound(curve: seq<Breakpoint>, t: real)
    requires WellFormed(curve)
    requires curve[0].0 <= t <= curve[|curve| - 1].0
    ensures FirstSegment(curve, t, 0).Some?
  {
    SegmentFoundFrom(curve, t, 0);
  }

  /** Inside the curve, getPwm uses the first segment i that encloses t and
      returns the rounded, scaled interpolation on it; that duty lies
      between the duties of the segment's two breakpoints. */
  lemma PwmInside(curve: seq<Breakpoint>, t: real) returns (i: nat)
    requires WellFormed(curve)
    requires curve[0].0 <= t <= curve[|curve| - 1].0
    ensures Encloses(curve, i, t)
    ensures forall j :: 0 <= j < i ==> !Encloses(curve, j, t)
    ensures Between(Interpolate(curve[i].0, curve[i].1, curve[i + 1].0, curve[i + 1].1, t), curve[i].1, curve[i + 1].1)
    ensures PwmFor(curve, t) == DutyToRegister(Interpolate(curve[i].0, curve[i].1, curve[i + 1].0, curve[i + 1].1, t))
  {
    SegmentFound(curve, t);
    i := FirstSegment(curve, t, 0).value;
    InterpolateBetween(curve[i].0, curve[i].1, curve[i + 1].0, curve[i + 1].1, t);
  }

  /** At a breakpoint's own temperature the register gets that breakpoint's
      duty, scaled: it does not matter that the breakpoint closes one
      segment and opens the next. */
  lemma PwmAtBreakpoint(curve: seq<Breakpoint>, k: nat)
    requires WellFormed(curve)
    requires k < |curve|
    ensures PwmFor(curve, curve[k].0) == DutyToRegister(curve[k].1)
  {
    var t := curve[k].0;
    var i := PwmInside(curve, t);
    assert i == k - 1 || i == k;
    InterpolateEnds(curve[i].0, curve[i].1, curve[i + 1].0, curve[i + 1].1);
    if i == k - 1 && k < |curve| - 1 {
      assert Encloses(curve, k - 1, t);
    }
  }

  /** The two ends of the duty scale map to the two ends of the register. */
  lemma DutyToRegisterEnds()
    ensures DutyToRegister(0.0) == 0 && DutyToRegister(100.0) == RegisterMax
  {
    RoundInteger(0);
    RoundInteger(255);
  }

  /** A larger duty never gives a smaller register value. */
  lemma DutyToRegisterMonotone(a: real, b: real)
    requires a <= b
    ensures DutyToRegister(a) <= DutyToRegister(b)
  {
    RoundMonotone(a / 100.0 * 255.0, b / 100.0 * 255.0);
  }

  /** The curve the program ships with. */
  const ShippedCurve: seq<Breakpoint> :=
    [(30.0, 30.0), (45.0, 32.0), (47.0, 34.0), (53.0, 55.0), (55.0, 57.0), (70.0, 59.0)]

  /** On the shipped curve: off below 30 degrees, full speed above 70, and at
      46 degrees 33% (halfway between 32% at 45 and 34% at 47), which scales
      to 84.15 and is written as 84. */
  lemma ShippedCurveExamples()
    ensures WellFormed(ShippedCurve)
    ensures PwmFor(ShippedCurve, 20.0) == 0 && PwmFor(ShippedCurve, 80.0) == RegisterMax
    ensures PwmFor(ShippedCurve, 46.0) == 84
  {
    var c := ShippedCurve;
    assert FirstSegment(c, 46.0, 0) == Some(1) by {
      assert !Encloses(c, 0, 46.0) && Encloses(c, 1, 46.0);
    }
    assert Interpolate(45.0, 32.0, 47.0, 34.0, 46.0) == 33.0;
  }
}
