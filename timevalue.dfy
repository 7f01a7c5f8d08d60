/** The time-value helpers of main.py: compound growth of a present amount
    and the level monthly deposit of an ordinary annuity. Amounts are exact
    reals; the source's IEEE doubles are not modelled. */
module TimeValue {
  import opened Outcome

  /** x raised to the natural power k (Python's `x ** k` for an int k >= 0). */
  function Pow(x: real, k: nat): real
  {
    if k == 0 then 1.0 else x * Pow(x, k - 1)
  }

  function Abs(x: real): real
  {
    if x < 0.0 then -x else x
  }

  lemma {:induction false} PowAdd(x: real, a: nat, b: nat)
    ensures Pow(x, a + b) == Pow(x, a) * Pow(x, b)
  {
    if a > 0 {
      PowAdd(x, a - 1, b);
      assert Pow(x, a + b) == x * Pow(x, (a - 1) + b);
    }
  }

  lemma {:induction false} PowAtLeastOne(x: real, k: nat)
    ensures x >= 1.0 ==> Pow(x, k) >= 1.0
  {
    if k > 0 && x >= 1.0 {
      PowAtLeastOne(x, k - 1);
      var p := Pow(x, k - 1);
      assert x * p - p == (x - 1.0) * p;
      assert (x - 1.0) * p >= 0.0;
    }
  }

  lemma ProductNonNegative(a: real, b: real)
    requires a >= 0.0 && b >= 0.0
    ensures a * b >= 0.0
  {
  }

  lemma {:induction false} PowAboveOne(x: real, k: nat)
    requires x > 1.0 && k >= 1
    ensures Pow(x, k) > 1.0
  {
    PowAtLeastOne(x, k - 1);
    var p := Pow(x, k - 1);
    assert x * p - p == (x - 1.0) * p;
    assert (x - 1.0) * p > 0.0;
  }

  lemma {:induction false} PowBelowOne(x: real, k: nat)
    requires 0.0 <= x < 1.0 && k >= 1
    ensures 0.0 <= Pow(x, k) < 1.0
  {
    if k == 1 {
      assert Pow(x, 1) == x * Pow(x, 0);
    } else {
      PowBelowOne(x, k - 1);
      var p := Pow(x, k - 1);
      assert p - x * p == (1.0 - x) * p;
      ProductNonNegative(1.0 - x, p);
      ProductNonNegative(x, p);
    }
  }

  lemma {:induction false} PowNonDecreasing(x: real, j: nat, k: nat)
    requires x >= 1.0 && j <= k
    ensures Pow(x, j) <= Pow(x, k)
  {
    PowAdd(x, j, k - j);
    PowAtLeastOne(x, j);
    PowAtLeastOne(x, k - j);
    var a, b := Pow(x, j), Pow(x, k - j);
    assert a * b - a == a * (b - 1.0);
    assert a * (b - 1.0) >= 0.0;
  }

  lemma {:induction false} PowAbs(x: real, k: nat)
    ensures Abs(Pow(x, k)) == Pow(Abs(x), k)
  {
    if k > 0 {
      PowAbs(x, k - 1);
      var p := Pow(x, k - 1);
      assert Abs(x * p) == Abs(x) * Abs(p);
    }
  }

  lemma {:induction false} PowOfOne(k: nat)
    ensures Pow(1.0, k) == 1.0
  {
    if k > 0 {
      PowOfOne(k - 1);
    }
  }

  lemma {:induction false} PowMinusOneEven(m: nat)
    ensures Pow(-1.0, 2 * m) == 1.0
  {
    if m > 0 {
      PowMinusOneEven(m - 1);
      assert Pow(-1.0, 2 * m) == -1.0 * (-1.0 * Pow(-1.0, 2 * (m - 1)));
    }
  }

  /** For a positive even exponent, x^k is one exactly when x is 1 or -1. */
  lemma PowEqualsOne(x: real, m: nat)
    requires m >= 1
    ensures Pow(x, 2 * m) == 1.0 <==> (x == 1.0 || x == -1.0)
  {
    PowAbs(x, 2 * m);
    if Abs(x) > 1.0 {
      PowAboveOne(Abs(x), 2 * m);
    } else if Abs(x) < 1.0 {
      PowBelowOne(Abs(x), 2 * m);
    } else if x == -1.0 {
      PowMinusOneEven(m);
    } else {
      assert x == 1.0;
      PowOfOne(2 * m);
    }
  }

  /** main.py `calculate_future_value`: the present value compounded yearly
      at the inflation rate, `pv * (1 + i) ** years`. */
  function FutureValue(presentValue: real, years: nat, inflationRate: real): (fv: real)
    ensures years == 0 ==> fv == presentValue
    ensures presentValue >= 0.0 && inflationRate >= 0.0 ==> fv >= presentValue
    ensures presentValue > 0.0 && inflationRate >= 0.0 ==> fv > 0.0
  {
    PowAtLeastOne(1.0 + inflationRate, years);
    var growth := Pow(1.0 + inflationRate, years);
    assert presentValue * growth - presentValue == presentValue * (growth - 1.0);
    assert presentValue >= 0.0 && growth >= 1.0 ==> presentValue * (growth - 1.0) >= 0.0;
    presentValue * growth
  }

  /** A longer horizon never gives a smaller future value when nothing is negative. */
  lemma FutureValueMonotone(presentValue: real, inflationRate: real, y1: nat, y2: nat)
    requires presentValue >= 0.0 && inflationRate >= 0.0 && y1 <= y2
    ensures FutureValue(presentValue, y1, inflationRate) <= FutureValue(presentValue, y2, inflationRate)
  {
    PowNonDecreasing(1.0 + inflationRate, y1, y2);
    var a, b := Pow(1.0 + inflationRate, y1), Pow(1.0 + inflationRate, y2);
    assert presentValue * b - presentValue * a == presentValue * (b - a);
    assert presentValue * (b - a) >= 0.0;
  }

  /** Compounding for a years and then for b more years is compounding for a + b years. */
  lemma FutureValueCompose(presentValue: real, inflationRate: real, a: nat, b: nat)
    ensures FutureValue(FutureValue(presentValue, a, inflationRate), b, inflationRate)
         == FutureValue(presentValue, a + b, inflationRate)
  {
    var x := 1.0 + inflationRate;
    PowAdd(x, a, b);
    assert Pow(x, b + a) == Pow(x, a + b);
    PowAdd(x, b, a);
    assert (presentValue * Pow(x, a)) * Pow(x, b) == presentValue * (Pow(x, a) * Pow(x, b));
  }

  /** Balance after `months` end-of-month deposits of `deposit`, each month's
      balance growing by (1 + rate) before the next deposit: the ordinary
      annuity that `calculate_monthly_savings` inverts. */
  function AccumulatedBalance(deposit: real, rate: real, months: nat): real
  {
    if months == 0 then 0.0
    else AccumulatedBalance(deposit, rate, months - 1) * (1.0 + rate) + deposit
  }

  /** The closed form of the annuity: B(n) * r == deposit * ((1 + r)^n - 1). */
  lemma {:induction false} AccumulatedBalanceClosedForm(deposit: real, rate: real, months: nat)
    ensures AccumulatedBalance(deposit, rate, months) * rate == deposit * (Pow(1.0 + rate, months) - 1.0)
  {
    if months > 0 {
      var m := months - 1;
      AccumulatedBalanceClosedForm(deposit, rate, m);
      var b, p := AccumulatedBalance(deposit, rate, m), Pow(1.0 + rate, m);
      var b', p' := AccumulatedBalance(deposit, rate, months), Pow(1.0 + rate, months);
      assert b' == b * (1.0 + rate) + deposit;
      assert p' == (1.0 + rate) * p;
      AnnuityStep(deposit, rate, b, p, b', p');
    }
  }

  /** The algebra of one step of AccumulatedBalanceClosedForm: from month
      n - 1 (balance b, growth p) to month n (balance b', growth p'). */
  lemma AnnuityStep(deposit: real, rate: real, b: real, p: real, b': real, p': real)
    requires b * rate == deposit * (p - 1.0)
    requires b' == b * (1.0 + rate) + deposit && p' == (1.0 + rate) * p
    ensures b' * rate == deposit * (p' - 1.0)
  {
    calc {
      b' * rate;
      (b * (1.0 + rate) + deposit) * rate;
      (b * rate) * (1.0 + rate) + deposit * rate;
      deposit * (p - 1.0) * (1.0 + rate) + deposit * rate;
      deposit * ((1.0 + rate) * p - 1.0);
      deposit * (p' - 1.0);
    }
  }

  /** With no return, n deposits just add up: n * deposit. */
  lemma {:induction false} AccumulatedBalanceZeroRate(deposit: real, months: nat)
    ensures AccumulatedBalance(deposit, 0.0, months) == months as real * deposit
  {
    if months > 0 {
      AccumulatedBalanceZeroRate(deposit, months - 1);
    }
  }

  /** main.py `calculate_monthly_savings`: with n = 12 * years months at the
      monthly rate r = rate / 12, the deposit `fv * r / ((1 + r) ** n - 1)`.
      The denominator is zero, and Python raises ZeroDivisionError, exactly
      when years is 0, the rate is 0, or 1 + r is -1 (n is always even). */
  function MonthlySavings(futureValue: real, years: nat, returnRate: real): (r: Result<real>)
    ensures r.Err? <==> (years == 0 || returnRate == 0.0 || returnRate == -24.0)
    ensures r.Err? ==> r.error == ZeroDivision(MonthlyContribution)
    ensures r.Ok? ==> AccumulatedBalance(r.value, returnRate / 12.0, 12 * years) == futureValue
    ensures r.Ok? && returnRate > 0.0 ==> (r.value > 0.0 <==> futureValue > 0.0)
  {
    var n := years * 12;
    var rate := returnRate / 12.0;
    var denominator := Pow(1.0 + rate, n) - 1.0;
    DenominatorZeroIff(years, returnRate);
    if denominator == 0.0 then
      Err(ZeroDivision(MonthlyContribution))
    else
      var payment := futureValue * rate / denominator;
      MonthlySavingsReaches(futureValue, rate, n, denominator, payment);
      Ok(payment)
  }

  /** The annuity denominator (1 + rate/12)^(12 * years) - 1 is zero exactly
      when years is 0, the rate is 0, or the rate is -24. */
  lemma DenominatorZeroIff(years: nat, returnRate: real)
    ensures Pow(1.0 + returnRate / 12.0, years * 12) - 1.0 == 0.0
        <==> (years == 0 || returnRate == 0.0 || returnRate == -24.0)
  {
    if years >= 1 {
      assert years * 12 == 2 * (6 * years);
      PowEqualsOne(1.0 + returnRate / 12.0, 6 * years);
    }
  }

  lemma MonthlySavingsReaches(futureValue: real, rate: real, n: nat, denominator: real, payment: real)
    requires denominator == Pow(1.0 + rate, n) - 1.0 && denominator != 0.0 && rate != 0.0
    requires payment == futureValue * rate / denominator
    ensures AccumulatedBalance(payment, rate, n) == futureValue
    ensures rate > 0.0 && n >= 1 ==> (payment > 0.0 <==> futureValue > 0.0)
  {
    if rate > 0.0 && n >= 1 {
      PowAboveOne(1.0 + rate, n);
      assert denominator > 0.0;
    }
    AccumulatedBalanceClosedForm(payment, rate, n);
    var b := AccumulatedBalance(payment, rate, n);
    assert payment * denominator == futureValue * rate;
    assert b * rate == futureValue * rate;
  }

  /** Scenario: 100,000,000 today at 5% inflation for 10 years. */
  lemma FutureValueScenario()
    ensures 162889462.0 < FutureValue(100000000.0, 10, 0.05) < 162889463.0
  {
    assert Pow(1.05, 10) == 1.62889462677744140625;
  }
}
