/** `toFixed(2)` on amounts, which floating point only holds up to some error. */
module Rounding {

  function Cents(n: int): real {
    n as real / 100.0
  }

  /** ECMA-262 section 21.1.3.3: the integer n for which n / 100 - x is as close to zero as possible, the
      larger of two such; a negative x is rounded as its opposite. */
  ghost predicate IsToFixed(x: real, n: int) {
    if x < 0.0 then IsToFixedPositive(-x, -n) else IsToFixedPositive(x, n)
  }

  ghost predicate IsToFixedPositive(x: real, n: int) {
    forall m: int :: Distance(m, x) > Distance(n, x) || (Distance(m, x) == Distance(n, x) && m <= n)
  }

  function Distance(n: int, x: real): real {
    if Cents(n) < x then x - Cents(n) else Cents(n) - x
  }

  function ToFixed(x: real): int {
    if x < 0.0 then -(-x * 100.0 + 0.5).Floor else (x * 100.0 + 0.5).Floor
  }

  /** `toFixed(2)` is rounding half up of the magnitude, and nothing else is. */
  lemma ToFixedIsNearest(x: real, n: int)
    ensures IsToFixed(x, n) <==> n == ToFixed(x)
  {
    if x < 0.0 {
      NearestPositive(-x, -n);
    } else {
      NearestPositive(x, n);
    }
  }

  lemma NearestPositive(x: real, n: int)
    ensures IsToFixedPositive(x, n) <==> n == (x * 100.0 + 0.5).Floor
  {
    var f := (x * 100.0 + 0.5).Floor;
    forall m: int | m != f
      ensures Distance(m, x) > Distance(f, x) || (Distance(m, x) == Distance(f, x) && m < f)
    {
      if m < f {
        assert Cents(m) <= Cents(f) - 0.01;
      } else {
        assert Cents(m) >= Cents(f) + 0.01;
      }
    }
    if n != f {
      assert Distance(n, x) > Distance(f, x) || (Distance(n, x) == Distance(f, x) && n < f);
    }
  }

  /** An amount in cents survives rounding exactly when its error is under half a cent. */
  lemma RoundsBack(n: int, error: real)
    requires Cents(n) + error >= 0.0
    ensures ToFixed(Cents(n) + error) == n <==> -0.005 <= error < 0.005
  {
  }
}
