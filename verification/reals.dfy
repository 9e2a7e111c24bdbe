// Products and quotients of reals. What a lemma elsewhere needs of a product it gets
// from here by name, so that the rest of its proof is linear.

module Reals {

  lemma Scaled(a: real, b: real)
    requires a >= 0.0 && b >= 0.0
    ensures a * b >= 0.0
  {
  }

  /** Amounts grow with time. */
  lemma Amounts(rate: real, a: real, b: real) returns (x: real, y: real)
    requires rate >= 0.0 && a <= b
    ensures x == rate * a && y == rate * b && x <= y
  {
    x, y := rate * a, rate * b;
    Scaled(rate, b - a);
  }

  lemma Distribute(rate: real, a: real, b: real, x: real, y: real)
    requires rate * a == x && rate * b == y
    ensures rate * (a + b) == x + y
  {
  }

  lemma Quotient(a: real, b: real) returns (q: real)
    requires a >= 0.0 && b > 0.0
    ensures q >= 0.0 && b * q == a
  {
    q := a / b;
  }

  /** `step` added up `n` times. */
  function Times(n: nat, step: real): real {
    if n == 0 then 0.0 else Times(n - 1, step) + step
  }

  lemma {:induction false} TimesMonotone(m: nat, n: nat, step: real)
    requires m <= n && step >= 0.0
    ensures Times(m, step) <= Times(n, step)
  {
    if m < n {
      TimesMonotone(m, n - 1, step);
    }
  }

  lemma {:induction false} TimesProduct(n: nat, count: real, step: real)
    requires count == n as real
    ensures Times(n, step) == count * step
  {
    if n > 0 {
      TimesProduct(n - 1, count - 1.0, step);
      assert (count - 1.0) * step == count * step - step;
    }
  }

  /** However small the step, enough of them reach any target. */
  lemma Reaches(target: real, step: real) returns (n: nat)
    requires step > 0.0 && target >= 0.0
    ensures Times(n, step) >= target
  {
    var count: real;
    n, count := CountAbove(target, step);
    TimesProduct(n, count, step);
  }

  lemma CountAbove(target: real, step: real) returns (n: nat, count: real)
    requires step > 0.0 && target >= 0.0
    ensures count == n as real && count * step >= target
  {
    var q := Quotient(target, step);
    n := q.Floor + 1;
    count := n as real;
    Scaled(count - q, step);
    assert (count - q) * step == count * step - q * step;
  }
}
