/** Small numeric helpers shared by the music-theory utilities: absolute value,
    Python's `round` on exact reals, and the "first index of the minimum" search
    that `np.argmin`, `min(..., key=...)` and a strict-`<` scan all perform. */
module Arith {

  function Abs(x: int): nat
  {
    if x < 0 then -x else x
  }

  function AbsReal(x: real): (r: real)
    ensures r >= 0.0
    ensures r == x || r == -x
  {
    if x < 0.0 then -x else x
  }

  /** Python 3 `round(x)`: nearest integer, halves go to the even neighbour. */
  function RoundHalfEven(x: real): (n: int)
    ensures AbsReal(x - n as real) <= 0.5
    ensures AbsReal(x - n as real) == 0.5 ==> n % 2 == 0
  {
    var f := x.Floor;
    var frac := x - f as real;
    if frac < 0.5 then f
    else if frac > 0.5 then f + 1
    else if f % 2 == 0 then f
    else f + 1
  }

  /** Index of the first minimal element: a left-to-right scan that only moves
      on a strictly smaller value, which is what `np.argmin` returns. */
  function FirstArgMin(costs: seq<real>): (k: nat)
    requires |costs| > 0
    ensures k < |costs|
    ensures forall j :: 0 <= j < |costs| ==> costs[k] <= costs[j]
    ensures forall j :: 0 <= j < k ==> costs[k] < costs[j]
  {
    if |costs| == 1 then 0
    else
      var k := FirstArgMin(costs[..|costs| - 1]);
      if costs[|costs| - 1] < costs[k] then |costs| - 1 else k
  }
}
