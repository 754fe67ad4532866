/** The minimum-step gate of pwmFan.run, which decides whether a newly
    computed register value is written to the PWM register. */
module Hysteresis {
  import opened Register

  /** Write(v): the register is set to v. Suppress: the register and the
      remembered previous value are left as they are. */
  datatype Decision = Write(value: int) | Suppress

  function Abs(x: int): int {
    if x < 0 then -x else x
  }

  /** 0 (off) and 255 (full speed) are always written, whatever minStep is;
      any other value only when it is at least minStep away from the value
      written last. */
  function Gate(previous: int, candidate: int, minStep: int): (d: Decision)
    ensures d.Write? ==> d.value == candidate
    ensures d.Suppress? <==> candidate != 0 && candidate != RegisterMax && Abs(previous - candidate) < minStep
  {
    if candidate == 0 then Write(0)
    else if candidate == RegisterMax then Write(RegisterMax)
    else if Abs(previous - candidate) >= minStep then Write(candidate)
    else Suppress
  }

  /** The register value after a decision. */
  function After(previous: int, d: Decision): int {
    if d.Write? then d.value else previous
  }

  /** The values a sequence of decisions writes to the register, in order. */
  function Writes(ds: seq<Decision>): (vs: seq<int>)
    ensures |vs| <= |ds|
  {
    if ds == [] then []
    else (if ds[0].Write? then [ds[0].value] else []) + Writes(ds[1..])
  }

  /** One more decision adds its write, if any, to the end of the writes. */
  lemma {:induction false} WritesPass(ds: seq<Decision>, d: Decision)
    ensures Writes(ds + [d]) == Writes(ds) + (if d.Write? then [d.value] else [])
  {
    var first := if ds == [] then d else ds[0];
    var head: seq<int> := if first.Write? then [first.value] else [];
    var tail: seq<int> := if d.Write? then [d.value] else [];
    if ds == [] {
      assert ds + [d] == [d];
      assert [d][1..] == [];
      assert Writes([d]) == head + Writes([]);
    } else {
      WritesPass(ds[1..], d);
      assert (ds + [d])[0] == ds[0];
      assert (ds + [d])[1..] == ds[1..] + [d];
      calc {
        Writes(ds + [d]);
        head + Writes(ds[1..] + [d]);
        head + (Writes(ds[1..]) + tail);
        (head + Writes(ds[1..])) + tail;
      }
    }
  }

  /** After the gate the register is the candidate or within minStep of it:
      the register never lags the computed value by minStep or more. */
  lemma GateTracks(previous: int, candidate: int, minStep: int)
    ensures var now := After(previous, Gate(previous, candidate, minStep));
            now == candidate || Abs(now - candidate) < minStep
  {
  }

  /** Gating the same candidate again changes nothing: a steady temperature
      causes no further writes of a different value. */
  lemma GateSettles(previous: int, candidate: int, minStep: int)
    ensures var now := After(previous, Gate(previous, candidate, minStep));
            After(now, Gate(now, candidate, minStep)) == now
  {
  }

  /** The gate keeps the register within [0, 255]. */
  lemma GateInRange(previous: int, candidate: int, minStep: int)
    requires 0 <= previous <= RegisterMax && 0 <= candidate <= RegisterMax
    ensures 0 <= After(previous, Gate(previous, candidate, minStep)) <= RegisterMax
  {
  }

  lemma GateExamples()
    ensures Gate(100, 101, 3) == Suppress && Gate(100, 103, 3) == Write(103)
    ensures Gate(50, 0, 20) == Write(0) && Gate(50, 255, 20) == Write(255)
  {
  }
}
