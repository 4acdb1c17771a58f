/** `Decimal.quantize` and `round` in their default mode: to the nearest multiple of a unit,
    ties to the even one. Decimals are modelled as reals. */
module Rounding {

  function Abs(x: real): real {
    if x < 0.0 then -x else x
  }

  function RoundHalfEven(x: real): int {
    var down := x.Floor;
    var rest := x - down as real;
    if rest < 0.5 then down
    else if rest > 0.5 then down + 1
    else if down % 2 == 0 then down
    else down + 1
  }

  /** `x.quantize(Decimal("0.000001"))`. */
  function ToMicros(x: real): real {
    RoundHalfEven(x * 1000000.0) as real / 1000000.0
  }

  /** `x.quantize(Decimal("0.01"))`. */
  function ToCents(x: real): real {
    RoundHalfEven(x * 100.0) as real / 100.0
  }

  /** `round(x, 3)`. */
  function ToMillis(x: real): real {
    RoundHalfEven(x * 1000.0) as real / 1000.0
  }

  /** The rounded value is a nearest integer, and the even one of the two when there are two. */
  lemma RoundIsNearest(x: real)
    ensures Abs(RoundHalfEven(x) as real - x) <= 0.5
    ensures Abs(RoundHalfEven(x) as real - x) == 0.5 ==> RoundHalfEven(x) % 2 == 0
  {
  }

  /** Those two facts leave no other choice. */
  lemma RoundIsUnique(x: real, n: int)
    requires Abs(n as real - x) <= 0.5
    requires Abs(n as real - x) == 0.5 ==> n % 2 == 0
    ensures n == RoundHalfEven(x)
  {
    RoundIsNearest(x);
    var down := x.Floor;
    assert down as real <= x < (down + 1) as real;
    assert n == down || n == down + 1 || n == down - 1;
  }

  lemma RoundIsMonotone(x: real, y: real)
    requires x <= y
    ensures RoundHalfEven(x) <= RoundHalfEven(y)
  {
    assert x.Floor <= y.Floor;
  }
}
