/** Exact-real stand-ins for the double constants, and a little power arithmetic. */
module Reals {
  /** The largest finite double: 2^1024 - 2^971. */
  const DBL_MAX: real :=
    179769313486231570814527423731704356798070567525844996598917476803157260780028538760589558632766878171540458953514382464234321326889464182768467546703537516986049910576551282076245490090389328944075868508455133942304583236903222948165808559332123348274797826204144723168738177180919299881250404026184124858368.0

  function Pow(x: real, n: nat): real {
    if n == 0 then 1.0 else x * Pow(x, n - 1)
  }

  lemma {:induction false} PowAdd(x: real, m: nat, n: nat)
    ensures Pow(x, m + n) == Pow(x, m) * Pow(x, n)
  {
    if m > 0 {
      PowAdd(x, m - 1, n);
      assert Pow(x, m) * Pow(x, n) == x * (Pow(x, m - 1) * Pow(x, n));
    }
  }

  lemma {:induction false} Squared(n: nat, p: real)
    requires p == Pow(2.0, n)
    ensures Pow(2.0, n + n) == p * p
  {
    PowAdd(2.0, n, n);
  }

  /** The constant is the one written in powers of two. */
  lemma {:induction false} LargestDouble()
    ensures DBL_MAX == (Pow(2.0, 53) - 1.0) * Pow(2.0, 971)
  {
    Squared(8, 256.0);
    Squared(16, 65536.0);
    Squared(32, 4294967296.0);
    Squared(64, 18446744073709551616.0);
    Squared(128, 340282366920938463463374607431768211456.0);
    Squared(256, 115792089237316195423570985008687907853269984665640564039457584007913129639936.0);
    PowAdd(2.0, 32, 21);
    PowAdd(2.0, 512, 459);
    PowAdd(2.0, 256, 203);
    PowAdd(2.0, 128, 75);
    PowAdd(2.0, 64, 11);
  }

  lemma {:induction false} ScaleLe(p: real, x: real, y: real)
    requires 0.0 <= p && x <= y
    ensures p * x <= p * y
  {
  }

  lemma {:induction false} ScaleLt(p: real, x: real, y: real)
    requires 0.0 < p && x < y
    ensures p * x < p * y
  {
  }

  /** A product as a term of its own, so that squares can be compared like any other product. */
  function Times(x: real, y: real): real { x * y }

  lemma {:induction false} TimesPositive(x: real, y: real)
    requires 0.0 < x && 0.0 < y
    ensures 0.0 < Times(x, y)
  {
  }

  lemma {:induction false} TimesNegated(x: real, y: real)
    ensures Times(-x, -y) == Times(x, y)
  {
  }

  lemma {:induction false} TimesLess(p: real, x: real, y: real)
    requires 0.0 < p && x < y
    ensures Times(p, x) < Times(p, y)
  {
  }

  lemma {:induction false} TimesAtMost(p: real, x: real, y: real)
    requires 0.0 <= p && x <= y
    ensures Times(p, x) <= Times(p, y)
  {
  }

  lemma {:induction false} TimesCommutes(x: real, y: real)
    ensures Times(x, y) == Times(y, x)
  {
  }
}
