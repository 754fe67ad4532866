/** The moving average of pwmFan.run: a window of the latest temperature
    samples, oldest first, and its arithmetic mean. */
module Smoothing {

  /** Python's `sum` over a list, added up from the left. */
  function Sum(s: seq<real>): real {
    if s == [] then 0.0 else Sum(s[..|s| - 1]) + s[|s| - 1]
  }

  /** Popping the oldest sample takes exactly that sample off the sum,
      although Sum adds up from the newest end. */
  lemma {:induction false} SumDropOldest(s: seq<real>)
    requires s != []
    ensures Sum(s[1..]) == Sum(s) - s[0]
  {
    if |s| > 1 {
      var init := s[..|s| - 1];
      SumDropOldest(init);
      assert init[1..] == s[1..][..|s[1..]| - 1];
    } else {
      assert s[1..] == [];
      assert s[..0] == [];
    }
  }

  /** `sum(samples) / len(samples)`, defined for a non-empty window. */
  function Mean(s: seq<real>): (mean: real)
    requires |s| > 0
    ensures mean * |s| as real == Sum(s)
  {
    Sum(s) / |s| as real
  }

  /** The last `n` entries of `history` (all of it while it is shorter). */
  function Latest(history: seq<real>, n: nat): (w: seq<real>)
    ensures |w| == if |history| < n then |history| else n
    ensures forall k :: 0 <= k < |w| ==> w[k] == history[|history| - |w| + k]
  {
    if |history| < n then history else history[|history| - n..]
  }

  /** The window after one sample: the sample is appended and, when the
      window then holds more than `readings` samples, the oldest one is
      dropped. */
  function Slide(window: seq<real>, sample: real, readings: int): (w: seq<real>)
    ensures w != [] ==> w[|w| - 1] == sample
    ensures 1 <= readings && |window| <= readings ==> 1 <= |w| <= readings
  {
    var appended := window + [sample];
    if |appended| > readings then appended[1..] else appended
  }

  /** A window that held the latest `readings` samples of the history still
      does so after the next sample: the window is first in, first out. */
  lemma SlideKeepsLatest(history: seq<real>, sample: real, readings: nat)
    requires readings >= 1
    ensures Slide(Latest(history, readings), sample, readings) == Latest(history + [sample], readings)
  {
    var extended := history + [sample];
    if |history| < readings {
      assert Latest(history, readings) == history;
      assert Latest(extended, readings) == extended;
    } else {
      var before := history[|history| - readings..];
      assert Latest(history, readings) == before;
      var slid := (before + [sample])[1..];
      assert Slide(before, sample, readings) == slid;
      var latest := extended[|extended| - readings..];
      assert Latest(extended, readings) == latest;
      assert |slid| == readings == |latest|;
      forall k | 0 <= k < readings
        ensures slid[k] == latest[k]
      {
        if k < readings - 1 {
          assert slid[k] == before[k + 1] == history[|history| - readings + k + 1];
        }
      }
    }
  }

  /** The mean of a single sample is that sample. */
  lemma MeanOfOne(x: real)
    ensures Mean([x]) == x
  {
    assert [x][..0] == [];
    assert Sum([x]) == x;
  }

  lemma {:induction false} SumBounds(s: seq<real>, lo: real, hi: real)
    requires forall i :: 0 <= i < |s| ==> lo <= s[i] <= hi
    ensures |s| as real * lo <= Sum(s) <= |s| as real * hi
  {
    if s != [] {
      SumBounds(s[..|s| - 1], lo, hi);
    }
  }

  /** The average never leaves the range of the samples it averages. */
  lemma MeanWithin(s: seq<real>, lo: real, hi: real)
    requires |s| > 0
    requires forall i :: 0 <= i < |s| ==> lo <= s[i] <= hi
    ensures lo <= Mean(s) <= hi
  {
    SumBounds(s, lo, hi);
    var n := |s| as real;
    assert Sum(s) / n >= (n * lo) / n;
    assert Sum(s) / n <= (n * hi) / n;
  }

  /** A full window of three slides on by one sample, and its mean follows. */
  lemma SlideExample()
    ensures Slide([10.0, 20.0, 30.0], 40.0, 3) == [20.0, 30.0, 40.0]
    ensures Mean([20.0, 30.0, 40.0]) == 30.0
  {
    assert [20.0, 30.0, 40.0][..2] == [20.0, 30.0];
    assert [20.0, 30.0][..1] == [20.0];
    assert [20.0][..0] == [];
  }
}
