/** Python's `round`, over exact reals: nearest, ties to the even neighbour. */
module Rounding {
  function RoundHalfEven(x: real): int {
    var below := x.Floor;
    var rest := x - below as real;
    if rest < 0.5 || (rest == 0.5 && below % 2 == 0) then below else below + 1
  }

  lemma {:induction false} RoundingErrorIsHalfAtMost(x: real)
    ensures -0.5 <= RoundHalfEven(x) as real - x <= 0.5
  {}

  /** Nearest, and even when two are nearest: no other whole number qualifies. */
  lemma {:induction false} RoundingIsNearestEvenIff(x: real, n: int)
    ensures n == RoundHalfEven(x) <==>
            -0.5 <= n as real - x <= 0.5 && (n as real - x == 0.5 || x - n as real == 0.5 ==> n % 2 == 0)
  {}

  lemma {:induction false} RoundingKeepsWhole(n: int)
    ensures RoundHalfEven(n as real) == n
  {}

  lemma {:induction false} RoundingIsMonotone(x: real, y: real)
    requires x <= y
    ensures RoundHalfEven(x) <= RoundHalfEven(y)
  {
    if x.Floor != y.Floor {
      assert x.Floor + 1 <= y.Floor;
    }
  }

  lemma {:induction false} FloorOfWhole(x: real, n: int)
    requires x == n as real
    ensures x.Floor == n
  {}

  /** `round(x, 1)`, held in tenths. */
  function Tenths(x: real): int {
    RoundHalfEven(10.0 * x)
  }

  /** `round(x, 2)`, held in hundredths (cents). */
  function Cents(x: real): int {
    RoundHalfEven(100.0 * x)
  }
}
