/**
 Decimal rounding, as used by `/score` for `round(landed, 2)` and `round(gm, 3)`.

 The scorer is parameterised by a rounding function; the properties proved about
 the scorer assume only `ValidRounding`: an error of at most half a unit in the
 last kept decimal place, and non-negative values staying non-negative.
 `RoundHalfEven` is a concrete rounding on exact reals that meets both.
 */
module Rounding {

  /** 10^n */
  function Pow10(n: nat): (p: nat)
    ensures p >= 1
  {
    if n == 0 then 1 else 10 * Pow10(n - 1)
  }

  /** 10^n as a real: the number of units of the n-th decimal place in 1. */
  function Scale(n: nat): (p: real)
    ensures p >= 1.0
  {
    Pow10(n) as real
  }

  /** Half a unit in the n-th decimal place: 0.5 * 10^-n. */
  function Half(n: nat): (h: real)
    ensures 0.0 < h <= 0.5
  {
    1.0 / (2.0 * Scale(n))
  }

  /** `r` has at most `n` decimal places. */
  ghost predicate HasDecimals(r: real, n: nat) {
    (r * Scale(n)).Floor as real == r * Scale(n)
  }

  /** What the scorer's lemmas need of `round(x, n)`. */
  ghost predicate ValidRounding(rnd: (real, nat) -> real) {
    && (forall x: real, n: nat :: -Half(n) <= rnd(x, n) - x <= Half(n))
    && (forall x: real, n: nat :: 0.0 <= x ==> 0.0 <= rnd(x, n))
  }

  /** The whole number of 10^-n units that `x` rounds to, ties going to the even unit. */
  function RoundUnits(x: real, n: nat): (u: int)
    ensures -0.5 <= u as real - x * Scale(n) <= 0.5
    ensures 0.0 <= x ==> 0 <= u
    ensures (u as real - x * Scale(n) == 0.5 || u as real - x * Scale(n) == -0.5) ==> u % 2 == 0
  {
    var s := x * Scale(n);
    var f := s.Floor;
    var frac := s - f as real;
    if frac < 0.5 then f
    else if frac > 0.5 then f + 1
    else if f % 2 == 0 then f
    else f + 1
  }

  /** Round-half-to-even of an exact real to `n` decimal places. */
  function RoundHalfEven(x: real, n: nat): (r: real)
    ensures -Half(n) <= r - x <= Half(n)
    ensures 0.0 <= x ==> 0.0 <= r
    ensures HasDecimals(r, n)
  {
    var u := RoundUnits(x, n);
    UnitsToDecimal(u, x, n);
    u as real / Scale(n)
  }

  /** A unit count within half a unit of `x * 10^n`, read back as a decimal. */
  lemma UnitsToDecimal(u: int, x: real, n: nat)
    requires -0.5 <= u as real - x * Scale(n) <= 0.5
    requires 0.0 <= x ==> 0 <= u
    ensures -Half(n) <= u as real / Scale(n) - x <= Half(n)
    ensures 0.0 <= x ==> 0.0 <= u as real / Scale(n)
    ensures HasDecimals(u as real / Scale(n), n)
  {
    var p := Scale(n);
    ScaleError(u as real, x, p);
    var r := u as real / p;
    assert r * p == u as real;
    assert (u as real).Floor == u;
  }

  /** Dividing a unit count by the scale divides its error by the scale too. */
  lemma ScaleError(u: real, x: real, p: real)
    requires p >= 1.0
    requires -0.5 <= u - x * p <= 0.5
    ensures -(1.0 / (2.0 * p)) <= u / p - x <= 1.0 / (2.0 * p)
  {
    assert u / p - x == (u - x * p) / p;
    assert 0.5 / p == 1.0 / (2.0 * p);
  }

  lemma RoundHalfEvenIsValid()
    ensures ValidRounding(RoundHalfEven)
  {
  }

  /** Rounding a value that already has `n` decimals leaves it unchanged. */
  lemma RoundHalfEvenKeepsDecimals(x: real, n: nat)
    requires HasDecimals(x, n)
    ensures RoundHalfEven(x, n) == x
  {
    assert (x * Scale(n)).Floor as real == x * Scale(n);
    assert RoundUnits(x, n) == (x * Scale(n)).Floor;
    assert (x * Scale(n)) / Scale(n) == x;
  }

  /** Rounding twice to the same precision is rounding once. */
  lemma RoundHalfEvenIdempotent(x: real, n: nat)
    ensures RoundHalfEven(RoundHalfEven(x, n), n) == RoundHalfEven(x, n)
  {
    RoundHalfEvenKeepsDecimals(RoundHalfEven(x, n), n);
  }
}
