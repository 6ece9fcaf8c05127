/** The display rounding utility `round(value, decimals)` and the closeness
    test the suite uses to compare computed numbers with expected ones. */
module Rounding {

  function Pow10(n: nat): (r: nat)
    ensures r >= 1
  {
    if n == 0 then 1 else 10 * Pow10(n - 1)
  }

  function Abs(x: real): (r: real)
    ensures r >= 0.0
    ensures r == x || r == -x
  {
    if x < 0.0 then -x else x
  }

  /** How an exact half is resolved. No test pins it, so every usual rule is
      kept open and each property below is proved for all of them. */
  datatype TieBreak = HalfUp | HalfDown | HalfAwayFromZero | HalfToEven

  /** Fractional part of s, in [0, 1). */
  function Frac(s: real): (f: real)
    ensures 0.0 <= f < 1.0
  {
    s - s.Floor as real
  }

  /** The integer nearest to s; an exact half goes the way `tie` says. */
  function NearestInt(s: real, tie: TieBreak): (n: int)
    ensures Abs(s - n as real) <= 0.5
    ensures Frac(s) < 0.5 ==> n == s.Floor
    ensures Frac(s) > 0.5 ==> n == s.Floor + 1
  {
    var f := s.Floor;
    if Frac(s) < 0.5 then f
    else if Frac(s) > 0.5 then f + 1
    else match tie
      case HalfUp => f + 1
      case HalfDown => f
      case HalfAwayFromZero => if s > 0.0 then f + 1 else f
      case HalfToEven => if f % 2 == 0 then f else f + 1
  }

  /** x expressed in units of 10^-places. */
  function Scaled(x: real, places: nat): real
  {
    x * Pow10(places) as real
  }

  /** `round(value, decimals)`: value rounded to `places` decimal places. The
      result is a whole number of units 10^-places and lies within half a unit
      of x. */
  function Round(x: real, places: nat, tie: TieBreak): (r: real)
    ensures Scaled(r, places).Floor as real == Scaled(r, places)
    ensures Abs(Scaled(r, places) - Scaled(x, places)) <= 0.5
  {
    var scale := Pow10(places) as real;
    var n := NearestInt(Scaled(x, places), tie);
    assert Scaled(n as real / scale, places) == n as real;
    assert (n as real).Floor == n;
    n as real / scale
  }

  /** No whole number of units is strictly nearer to x than the rounding. */
  lemma RoundIsNearest(x: real, places: nat, tie: TieBreak, k: int)
    ensures Abs(Scaled(Round(x, places, tie), places) - Scaled(x, places))
         <= Abs(k as real - Scaled(x, places))
  {
    var s := Scaled(x, places);
    var n := NearestInt(s, tie);
    var scale := Pow10(places) as real;
    assert Scaled(n as real / scale, places) == n as real;
    var f := s.Floor;
    assert n == f || n == f + 1;
    if k <= f {
      assert s - k as real >= Frac(s);
    } else {
      assert k as real - s >= 1.0 - Frac(s);
    }
  }

  /** When x lies strictly within half a unit of a value y that is a whole
      number of units, x rounds to y whatever the tie rule. */
  lemma RoundToNearby(x: real, places: nat, tie: TieBreak, y: real)
    requires Scaled(y, places).Floor as real == Scaled(y, places)
    requires Abs(Scaled(x, places) - Scaled(y, places)) < 0.5
    ensures Round(x, places, tie) == y
  {
    var s := Scaled(x, places);
    var n := Scaled(y, places).Floor;
    if s < n as real {
      assert s.Floor == n - 1;
    } else {
      assert s.Floor == n;
    }
    assert n as real / Pow10(places) as real == y;
  }

  /** Away from an exact half, the tie rule makes no difference: every rule
      gives the same rounding. */
  lemma TieRuleOnlyMattersAtHalf(x: real, places: nat, t1: TieBreak, t2: TieBreak)
    requires Frac(Scaled(x, places)) != 0.5
    ensures Round(x, places, t1) == Round(x, places, t2)
  {
    var s := Scaled(x, places);
    if Frac(s) < 0.5 {
      assert NearestInt(s, t1) == s.Floor == NearestInt(s, t2);
    } else {
      assert NearestInt(s, t1) == s.Floor + 1 == NearestInt(s, t2);
    }
  }

  /** Away from an exact half, rounding commutes with negation, so
      round(-v, d) is -round(v, d). */
  lemma RoundNegation(x: real, places: nat, tie: TieBreak)
    requires Frac(Scaled(x, places)) != 0.5
    ensures Round(-x, places, tie) == -Round(x, places, tie)
  {
    var scale := Pow10(places) as real;
    var s := Scaled(x, places);
    assert Scaled(-x, places) == -s;
    NearestIntNegation(s, tie);
    var n := NearestInt(s, tie);
    assert (-n) as real / scale == -(n as real / scale);
  }

  lemma NearestIntNegation(s: real, tie: TieBreak)
    requires Frac(s) != 0.5
    ensures NearestInt(-s, tie) == -NearestInt(s, tie)
  {
    var f := s.Floor;
    if Frac(s) == 0.0 {
      assert s == f as real;
      assert (-s).Floor == -f;
    } else {
      assert -(f as real) - 1.0 <= -s < -(f as real);
      assert (-s).Floor == -f - 1;
      assert Frac(-s) == 1.0 - Frac(s);
    }
  }

  /** The test runner's Jest-compatible `toBeCloseTo(expected, precision)`:
      the difference is below half a unit in the `precision`-th decimal
      place. */
  predicate CloseTo(received: real, expected: real, precision: nat)
  {
    Abs(expected - received) * (2 * Pow10(precision)) as real < 1.0
  }

  /** The default precision of `toBeCloseTo`. */
  const DefaultPrecision: nat := 2

}
