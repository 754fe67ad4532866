/** Python 3's one-argument `round` on a number: the nearest integer, with
    ties broken towards the even neighbour ("banker's rounding"). */
module Rounding {

  /** The nearest integer to `x`; of two equally near, the even one. */
  function Round(x: real): (r: int)
    ensures x - 0.5 <= r as real <= x + 0.5
    ensures r as real - x == 0.5 || x - r as real == 0.5 ==> r % 2 == 0
  {
    var f := x.Floor;
    var frac := x - f as real;
    if frac < 0.5 then f
    else if frac > 0.5 then f + 1
    else if f % 2 == 0 then f
    else f + 1
  }

  /** The two postconditions of Round pin its result down: no other integer
      is within one half of `x` and even in the case of a tie. */
  lemma RoundIsUnique(x: real, n: int)
    requires x - 0.5 <= n as real <= x + 0.5
    requires n as real - x == 0.5 || x - n as real == 0.5 ==> n % 2 == 0
    ensures n == Round(x)
  {
  }

  /** Rounding never reverses the order of two numbers. */
  lemma RoundMonotone(x: real, y: real)
    requires x <= y
    ensures Round(x) <= Round(y)
  {
  }

  /** An integer rounds to itself. */
  lemma RoundInteger(n: int)
    ensures Round(n as real) == n
  {
  }

  /** Ties go to the even neighbour, downwards as often as upwards. */
  lemma RoundTies()
    ensures Round(0.5) == 0 && Round(1.5) == 2 && Round(2.5) == 2 && Round(84.5) == 84
  {
  }
}
