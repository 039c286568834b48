/** Python's round(x, 3) and round(x, 4) on exact rationals: nearest, ties to even. */
module Rounding {
  function Nearest(x: real): int {
    var f := x.Floor;
    var rest := x - f as real;
    if rest < 0.5 then f else if rest > 0.5 then f + 1 else if f % 2 == 0 then f else f + 1
  }

  function Round3(x: real): real {
    Nearest(x * 1000.0) as real / 1000.0
  }

  function Round4(x: real): real {
    Nearest(x * 10000.0) as real / 10000.0
  }

  lemma NearestIsMonotone(x: real, y: real)
    requires x <= y
    ensures Nearest(x) <= Nearest(y)
  {
    assert x.Floor <= y.Floor;
  }

  /** No integer is nearer, and of two equally near the even one is taken. */
  lemma NearestIsNearest(x: real, n: int)
    ensures Nearest(x) as real - 0.5 <= x <= Nearest(x) as real + 0.5
    ensures x == n as real + 0.5 || x == n as real - 0.5 ==> Nearest(x) % 2 == 0
    ensures n as real - 0.5 < x < n as real + 0.5 ==> Nearest(x) == n
  {
    var f := x.Floor;
    assert f as real <= x < (f + 1) as real;
    NearestEitherWay(x, f, x - f as real);
    assert n < f ==> n + 1 <= f;
    assert n > f + 1 ==> n >= f + 2;
  }

  lemma NearestEitherWay(x: real, f: int, rest: real)
    requires f == x.Floor && rest == x - f as real
    ensures Nearest(x) == f || Nearest(x) == f + 1
    ensures Nearest(x) == f <==> rest < 0.5 || (rest == 0.5 && f % 2 == 0)
    ensures rest == 0.5 ==> Nearest(x) % 2 == 0
  {}

  lemma NearestFixesIntegers(n: int)
    ensures Nearest(n as real) == n
  {}

  lemma RoundingIsMonotone(x: real, y: real)
    requires x <= y
    ensures Round3(x) <= Round3(y) && Round4(x) <= Round4(y)
  {
    NearestIsMonotone(x * 1000.0, y * 1000.0);
    NearestIsMonotone(x * 10000.0, y * 10000.0);
  }

  /** Rounding never crosses a bound that has three decimals itself. */
  lemma Round3Respects(x: real, thousandths: int)
    ensures x <= thousandths as real / 1000.0 ==> Round3(x) <= thousandths as real / 1000.0
    ensures x >= thousandths as real / 1000.0 ==> Round3(x) >= thousandths as real / 1000.0
  {
    NearestFixesIntegers(thousandths);
    if x <= thousandths as real / 1000.0 {
      NearestIsMonotone(x * 1000.0, thousandths as real);
    }
    if x >= thousandths as real / 1000.0 {
      NearestIsMonotone(thousandths as real, x * 1000.0);
    }
  }
}
