/** The configuration of pwmFan and its validation at start-up: the curve,
    the sampling interval, the moving-average length and the minimum step. */
module Configuration {
  import opened Wrappers
  import opened FanCurve

  /** A configuration value as the program receives it; the type checks of
      validate tell an int from a float from anything else. */
  datatype Value = Int(i: int) | Float(f: real) | Other

  /** The curve as given: a dict of (key, value) pairs in its iteration
      order, or something that is not a dict at all. */
  datatype RawCurve = Dict(entries: seq<(Value, Value)>) | NotADict

  datatype RawConfig = RawConfig(curve: RawCurve, interval: Value, readings: Value, minStep: Value)

  /** The configuration once validated. */
  datatype Config = Config(curve: seq<Breakpoint>, interval: real, readings: int, minStep: int)

  /** The reasons validate raises, one per message. */
  datatype ConfigError =
    | CurveNotADict
    | IntervalNotNumeric
    | ReadingsNotInteger
    | MinStepNotInteger
    | TooFewPairs
    | KeyNotNumeric
    | ValueNotNumeric
    | KeyOutOfRange
    | ValueOutOfRange
    | KeysNotSorted

  predicate IsNumber(v: Value) {
    v.Int? || v.Float?
  }

  function ToReal(v: Value): real {
    match v
    case Int(i) => i as real
    case Float(f) => f
    case Other => 0.0
  }

  /** The checks of one pass of validate's loop over the curve, in their
      order, for a pair whose predecessor's key was `previous`. */
  function PairError(previous: real, key: Value, val: Value): (e: Option<ConfigError>)
    ensures e.None? <==> IsNumber(key) && IsNumber(val) && InRange(ToReal(key))
                         && InRange(ToReal(val)) && previous < ToReal(key)
    ensures e == Some(KeyNotNumeric) <==> !IsNumber(key)
    ensures e == Some(ValueNotNumeric) <==> IsNumber(key) && !IsNumber(val)
    ensures e == Some(KeyOutOfRange) <==> IsNumber(key) && IsNumber(val) && !InRange(ToReal(key))
    ensures e == Some(ValueOutOfRange) <==>
              IsNumber(key) && IsNumber(val) && InRange(ToReal(key)) && !InRange(ToReal(val))
    ensures e == Some(KeysNotSorted) <==>
              IsNumber(key) && IsNumber(val) && InRange(ToReal(key)) && InRange(ToReal(val))
              && ToReal(key) <= previous
  {
    if !IsNumber(key) then Some(KeyNotNumeric)
    else if !IsNumber(val) then Some(ValueNotNumeric)
    else if !InRange(ToReal(key)) then Some(KeyOutOfRange)
    else if !InRange(ToReal(val)) then Some(ValueOutOfRange)
    else if ToReal(key) <= previous then Some(KeysNotSorted)
    else None
  }

  /** The value of `previous` when the loop reaches pair k: -1 before the
      first pair, afterwards the key of the pair before. */
  function Previous(entries: seq<(Value, Value)>, k: nat): (previous: real)
    requires k <= |entries|
    ensures k == 0 ==> previous < 0.0
    ensures 0 < k ==> previous == ToReal(entries[k - 1].0)
  {
    if k == 0 then -1.0 else ToReal(entries[k - 1].0)
  }

  /** Pair k is the first pair that fails its checks. */
  ghost predicate FirstFailing(entries: seq<(Value, Value)>, k: nat) {
    && k < |entries|
    && (forall j :: 0 <= j < k ==> PairError(Previous(entries, j), entries[j].0, entries[j].1).None?)
    && PairError(Previous(entries, k), entries[k].0, entries[k].1).Some?
  }

  /** The curve as breakpoints, every key and value read as a number. */
  function Breakpoints(entries: seq<(Value, Value)>): (curve: seq<Breakpoint>)
    ensures |curve| == |entries|
    ensures forall i :: 0 <= i < |entries| ==> curve[i] == (ToReal(entries[i].0), ToReal(entries[i].1))
  {
    seq(|entries|, i requires 0 <= i < |entries| => (ToReal(entries[i].0), ToReal(entries[i].1)))
  }

  /** Everything validate asks of a configuration: a dict curve, a numeric
      interval, integer readings and minStep, at least two pairs, numeric
      keys and values in [0, 100], each key above the one before. */
  ghost predicate Acceptable(raw: RawConfig) {
    && raw.curve.Dict?
    && IsNumber(raw.interval)
    && raw.readings.Int?
    && raw.minStep.Int?
    && |raw.curve.entries| >= 2
    && (forall k :: 0 <= k < |raw.curve.entries| ==>
          var (key, val) := raw.curve.entries[k];
          IsNumber(key) && IsNumber(val) && InRange(ToReal(key)) && InRange(ToReal(val)))
    && (forall k :: 0 < k < |raw.curve.entries| ==>
          ToReal(raw.curve.entries[k - 1].0) < ToReal(raw.curve.entries[k].0))
  }

  /** The checks validate makes before its loop over the pairs, in order. */
  function HeaderError(raw: RawConfig): (e: Option<ConfigError>)
    ensures e.None? <==> && raw.curve.Dict? && IsNumber(raw.interval) && raw.readings.Int?
                         && raw.minStep.Int? && |raw.curve.entries| >= 2
    ensures e == Some(CurveNotADict) <==> !raw.curve.Dict?
    ensures e == Some(IntervalNotNumeric) <==> raw.curve.Dict? && !IsNumber(raw.interval)
    ensures e == Some(ReadingsNotInteger) <==>
              raw.curve.Dict? && IsNumber(raw.interval) && !raw.readings.Int?
    ensures e == Some(MinStepNotInteger) <==>
              raw.curve.Dict? && IsNumber(raw.interval) && raw.readings.Int? && !raw.minStep.Int?
    ensures e == Some(TooFewPairs) <==>
              raw.curve.Dict? && IsNumber(raw.interval) && raw.readings.Int? && raw.minStep.Int?
              && |raw.curve.entries| < 2
  {
    if !raw.curve.Dict? then Some(CurveNotADict)
    else if !IsNumber(raw.interval) then Some(IntervalNotNumeric)
    else if !raw.readings.Int? then Some(ReadingsNotInteger)
    else if !raw.minStep.Int? then Some(MinStepNotInteger)
    else if |raw.curve.entries| < 2 then Some(TooFewPairs)
    else None
  }

  /** pwmFan.validate: accepts exactly the acceptable configurations and
      hands back a well-formed curve; otherwise reports the first check that
      fails, in the order the checks are made. */
  method Validate(raw: RawConfig) returns (r: Result<Config, ConfigError>)
    ensures r.Ok? <==> Acceptable(raw)
    ensures r.Ok? ==> && WellFormed(r.value.curve)
                      && r.value == Config(Breakpoints(raw.curve.entries), ToReal(raw.interval),
                                           raw.readings.i, raw.minStep.i)
    ensures HeaderError(raw).Some? ==> r == Err(HeaderError(raw).value)
    ensures HeaderError(raw).None? && r.Err? ==>
              exists k: nat :: FirstFailing(raw.curve.entries, k)
                               && PairError(Previous(raw.curve.entries, k), raw.curve.entries[k].0,
                                            raw.curve.entries[k].1) == Some(r.error)
  {
    if !raw.curve.Dict? {
      return Err(CurveNotADict);
    }
    if !IsNumber(raw.interval) {
      return Err(IntervalNotNumeric);
    }
    if !raw.readings.Int? {
      return Err(ReadingsNotInteger);
    }
    if !raw.minStep.Int? {
      return Err(MinStepNotInteger);
    }
    var entries := raw.curve.entries;
    if |entries| < 2 {
      return Err(TooFewPairs);
    }
    var previous := -1.0;
    var i := 0;
    while i < |entries|
      invariant 0 <= i <= |entries|
      invariant previous == Previous(entries, i)
      invariant forall j :: 0 <= j < i ==> PairError(Previous(entries, j), entries[j].0, entries[j].1).None?
    {
      var (key, val) := entries[i];
      var e := PairError(previous, key, val);
      if e.Some? {
        assert FirstFailing(entries, i);
        AcceptableIff(raw);
        return Err(e.value);
      }
      previous := ToReal(key);
      i := i + 1;
    }
    AcceptableIff(raw);
    AllPassingIsWellFormed(entries);
    return Ok(Config(Breakpoints(entries), ToReal(raw.interval), raw.readings.i, raw.minStep.i));
  }

  /** A configuration is acceptable exactly when it passes the checks made
      before the loop and every pair passes the checks made in it. */
  lemma AcceptableIff(raw: RawConfig)
    ensures Acceptable(raw) <==>
              && HeaderError(raw).None?
              && forall j :: 0 <= j < |raw.curve.entries| ==>
                   PairError(Previous(raw.curve.entries, j), raw.curve.entries[j].0, raw.curve.entries[j].1).None?
  {
    if HeaderError(raw).None? {
      var entries := raw.curve.entries;
      if forall j :: 0 <= j < |entries| ==> PairError(Previous(entries, j), entries[j].0, entries[j].1).None? {
        forall k | 0 < k < |entries|
          ensures ToReal(entries[k - 1].0) < ToReal(entries[k].0)
        {
          assert PairError(Previous(entries, k), entries[k].0, entries[k].1).None?;
        }
      }
    }
  }

  /** An acceptable configuration gives a well-formed curve. */
  lemma AcceptableIsWellFormed(raw: RawConfig)
    requires Acceptable(raw)
    ensures WellFormed(Breakpoints(raw.curve.entries))
  {
    var curve := Breakpoints(raw.curve.entries);
    forall k | 0 < k < |curve|
      ensures curve[k - 1].0 < curve[k].0
    {
    }
    AscendingStepwise(curve);
  }

  /** When every pair passes its checks, the keys ascend pair by pair, and so
      the curve is well formed, ascending between any two breakpoints. */
  lemma AllPassingIsWellFormed(entries: seq<(Value, Value)>)
    requires |entries| >= 2
    requires forall j :: 0 <= j < |entries| ==> PairError(Previous(entries, j), entries[j].0, entries[j].1).None?
    ensures WellFormed(Breakpoints(entries))
  {
    var curve := Breakpoints(entries);
    forall k | 0 < k < |entries|
      ensures curve[k - 1].0 < curve[k].0
    {
      assert PairError(Previous(entries, k), entries[k].0, entries[k].1).None?;
    }
    AscendingStepwise(curve);
  }

  /** Keys that rise from each breakpoint to the next rise between any two. */
  lemma AscendingStepwise(curve: seq<Breakpoint>)
    requires forall k :: 0 < k < |curve| ==> curve[k - 1].0 < curve[k].0
    ensures forall i, j :: 0 <= i < j < |curve| ==> curve[i].0 < curve[j].0
  {
    forall i, j | 0 <= i < j < |curve|
      ensures curve[i].0 < curve[j].0
    {
      AscendingBetween(curve, i, j);
    }
  }

  lemma {:induction false} AscendingBetween(curve: seq<Breakpoint>, i: nat, j: nat)
    requires forall k :: 0 < k < |curve| ==> curve[k - 1].0 < curve[k].0
    requires i < j < |curve|
    ensures curve[i].0 < curve[j].0
    decreases j - i
  {
    if i + 1 < j {
      AscendingBetween(curve, i + 1, j);
    }
  }
}
