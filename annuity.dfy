/**
 The level-payment (annuity) arithmetic behind the loan calculator.

 The calculator obtains its fixed monthly payment from a library routine over
 floating point; here the same payment is written out as the closed annuity
 formula over exact reals, together with the balance that level payments
 leave after k months and its closed form.
 */
module Annuity {

  /** x raised to a natural power. */
  function Pow(x: real, n: nat): real
  {
    if n == 0 then 1.0 else x * Pow(x, n - 1)
  }

  /** Powers of a factor of at least 1 are at least 1. */
  lemma {:induction false} PowAtLeastOne(x: real, n: nat)
    requires x >= 1.0
    ensures Pow(x, n) >= 1.0
  {
    if n > 0 {
      PowAtLeastOne(x, n - 1);
      GrowByFactor(x, Pow(x, n - 1));
    }
  }

  /** For a growth factor above 1, the powers grow strictly with the exponent. */
  lemma {:induction false} PowStrictlyIncreasing(x: real, k: nat, n: nat)
    requires x > 1.0 && k < n
    ensures Pow(x, k) < Pow(x, n)
  {
    if k < n - 1 {
      PowStrictlyIncreasing(x, k, n - 1);
    }
    PowAtLeastOne(x, n - 1);
    GrowByFactor(x, Pow(x, n - 1));
  }

  /** Multiplying a value of at least 1 by a factor of at least 1 does not shrink it; above 1 it grows. */
  lemma GrowByFactor(x: real, p: real)
    requires x >= 1.0 && p >= 1.0
    ensures x * p >= p
    ensures x > 1.0 ==> x * p > p
  {
    assert x * p - p == (x - 1.0) * p;
    if x > 1.0 {
      MulPositive(x - 1.0, p);
    }
  }

  lemma MulPositive(a: real, b: real)
    requires a > 0.0 && b > 0.0
    ensures a * b > 0.0
  {
  }

  /**
   The fixed monthly payment (EMI) that repays `principal` in `n` months at
   monthly rate `r`: principal * r * (1+r)^n / ((1+r)^n - 1).
   */
  function Emi(principal: real, r: real, n: nat): real
    requires r > 0.0 && n >= 1
  {
    PowStrictlyIncreasing(1.0 + r, 0, n);
    principal * r * Pow(1.0 + r, n) / (Pow(1.0 + r, n) - 1.0)
  }

  /**
   The level payment e is never less than one month's interest on the whole
   principal, and it is zero for a zero principal.
   */
  lemma EmiCoversInterest(principal: real, r: real, n: nat, e: real)
    requires r > 0.0 && n >= 1 && e == Emi(principal, r, n)
    ensures principal >= 0.0 ==> e >= principal * r
    ensures principal == 0.0 ==> e == 0.0
  {
    PowStrictlyIncreasing(1.0 + r, 0, n);
    QuotientBound(principal * r, Pow(1.0 + r, n));
  }

  lemma QuotientBound(a: real, q: real)
    requires q > 1.0
    ensures a >= 0.0 ==> a * q / (q - 1.0) >= a
    ensures a == 0.0 ==> a * q / (q - 1.0) == 0.0
  {
    var d := q - 1.0;
    assert a * q == a * d + a;
    assert (a * d + a) / d == a + a / d;
    if a >= 0.0 {
      assert a / d >= 0.0;
    }
  }

  /**
   The level payment e times ((1+r)^n - 1) is the principal's interest grown
   over n months (stated for the values e and q = (1+r)^n).
   */
  lemma EmiScaled(principal: real, r: real, n: nat, e: real, q: real)
    requires r > 0.0 && n >= 1
    requires e == Emi(principal, r, n) && q == Pow(1.0 + r, n)
    ensures e * (q - 1.0) == principal * r * q
  {
    PowStrictlyIncreasing(1.0 + r, 0, n);
    QuotientTimes(principal * r * q, q - 1.0);
  }

  lemma QuotientTimes(a: real, d: real)
    requires d != 0.0
    ensures a / d * d == a
  {
  }

  /**
   The balance left after `k` months of a payment `e` with nothing extra:
   each month adds the month's interest at rate r and subtracts the payment.
   */
  function LevelBalance(principal: real, r: real, e: real, k: nat): real
  {
    if k == 0 then principal else LevelBalance(principal, r, e, k - 1) * (1.0 + r) - e
  }

  /**
   The closed form of the balance b after k months: r * b is
   r * principal * (1+r)^k less the payment times ((1+r)^k - 1),
   where qk = (1+r)^k.
   */
  lemma {:induction false} LevelBalanceClosedForm(principal: real, r: real, e: real, k: nat, b: real, qk: real)
    requires b == LevelBalance(principal, r, e, k) && qk == Pow(1.0 + r, k)
    ensures b * r == principal * r * qk - e * (qk - 1.0)
  {
    if k > 0 {
      var b', qk' := LevelBalance(principal, r, e, k - 1), Pow(1.0 + r, k - 1);
      LevelBalanceClosedForm(principal, r, e, k - 1, b', qk');
      ClosedFormStep(b', b, e, principal, r, qk', qk);
    }
  }

  lemma ClosedFormStep(b: real, b': real, e: real, p: real, r: real, q: real, q': real)
    requires b' == b * (1.0 + r) - e
    requires b * r == p * r * q - e * (q - 1.0)
    requires q' == (1.0 + r) * q
    ensures b' * r == p * r * q' - e * (q' - 1.0)
  {
    assert b' * r == (b * r) * (1.0 + r) - e * r;
  }

  /**
   With no extra payments the level payment retires the loan exactly: the
   balance is zero after n months and, for a positive principal, strictly
   positive before.
   */
  lemma LevelBalancePaidOff(principal: real, r: real, n: nat, k: nat)
    requires r > 0.0 && n >= 1 && k <= n
    ensures k == n ==> LevelBalance(principal, r, Emi(principal, r, n), k) == 0.0
    ensures principal > 0.0 && k < n ==> LevelBalance(principal, r, Emi(principal, r, n), k) > 0.0
  {
    var e, q := Emi(principal, r, n), Pow(1.0 + r, n);
    EmiScaled(principal, r, n, e, q);
    PaymentRetires(principal, r, e, n, k, LevelBalance(principal, r, e, k), q, Pow(1.0 + r, k));
  }

  /**
   The same for any payment e with e * (q - 1) == principal * r * q, where
   q = (1+r)^n: the balance b after k months is zero at k == n and positive
   before.
   */
  lemma PaymentRetires(principal: real, r: real, e: real, n: nat, k: nat, b: real, q: real, qk: real)
    requires r > 0.0 && n >= 1 && k <= n
    requires b == LevelBalance(principal, r, e, k) && q == Pow(1.0 + r, n) && qk == Pow(1.0 + r, k)
    requires e * (q - 1.0) == principal * r * q
    ensures k == n ==> b == 0.0
    ensures principal > 0.0 && k < n ==> b > 0.0
  {
    LevelBalanceClosedForm(principal, r, e, k, b, qk);
    PowBounds(1.0 + r, k, n, q, qk);
    PaidOffSign(b, e, principal, r, q, qk);
  }

  /**
   The powers q = x^n and qk = x^k of a factor above 1, with k <= n, lie
   between 1 and q, which exceeds 1; qk is below q when k < n.
   */
  lemma PowBounds(x: real, k: nat, n: nat, q: real, qk: real)
    requires x > 1.0 && 1 <= n && k <= n
    requires q == Pow(x, n) && qk == Pow(x, k)
    ensures 1.0 < q && 1.0 <= qk <= q
    ensures k < n ==> qk < q
  {
    PowStrictlyIncreasing(x, 0, n);
    PowAtLeastOne(x, k);
    if k < n {
      PowStrictlyIncreasing(x, k, n);
    }
  }

  lemma PaidOffSign(b: real, e: real, p: real, r: real, q: real, qk: real)
    requires r > 0.0 && q > 1.0 && 1.0 <= qk <= q
    requires b * r == p * r * qk - e * (qk - 1.0)
    requires e * (q - 1.0) == p * r * q
    ensures qk == q ==> b == 0.0
    ensures p > 0.0 && qk < q ==> b > 0.0
  {
    var d := q - 1.0;
    assert (b * r) * d == p * r * (q - qk) by {
      assert (b * r) * d == p * r * qk * d - (e * d) * (qk - 1.0);
    }
    if qk == q {
      assert b * r == 0.0;
    } else if p > 0.0 {
      MulPositive(p, r);
      MulPositive(p * r, q - qk);
      MulPositive(r, d);
      PositiveFactor(b, r * d);
    }
  }

  lemma PositiveFactor(a: real, b: real)
    requires b > 0.0 && a * b > 0.0
    ensures a > 0.0
  {
  }
}
