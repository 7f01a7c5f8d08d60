/** main.py `calculate_financials`: net worth, three ratios, one projection
    per goal, and the recommendation text. Python stops with
    ZeroDivisionError at the first zero denominator; the model returns that
    error instead of an analysis. */
module Metrics {
  import opened Outcome
  import opened TimeValue
  import opened Client
  import opened Recommendations

  /** Fixed engine assumptions (main.py:86 and main.py:91). */
  const InflationRate: real := 0.05
  const ReturnRate: real := 0.1

  /** One entry of 'goal_projections'. */
  datatype Projection = Projection(
    name: string,           // 'nama'
    presentTarget: nat,     // 'target_sekarang'
    futureTarget: real,     // 'target_masa_depan'
    monthlyDeposit: real,   // 'setoran_bulanan'
    years: nat)             // 'jangka_waktu'

  /** The dictionary `calculate_financials` returns. The two ratios are kept
      unrounded: the `round` of main.py:106-107 is not modelled. */
  datatype Analysis = Analysis(
    netWorth: int,
    liquidityRatio: real,
    debtToIncome: real,
    savingsRate: real,
    goalProjections: seq<Projection>,
    recommendations: string)

  /** `tabungan / (pengeluaran_total / 3)`: months of expenses covered,
      measured against a third of the monthly expenses. */
  function LiquidityRatio(u: UserData): (r: Result<real>)
    ensures r.Err? <==> TotalExpenses(u) == 0
    ensures r.Err? ==> r.error == ZeroDivision(Liquidity)
    ensures r.Ok? ==> r.value >= 0.0 && r.value * TotalExpenses(u) as real == 3.0 * u.savings as real
  {
    if TotalExpenses(u) == 0 then Err(ZeroDivision(Liquidity))
    else Ok(u.savings as real / (TotalExpenses(u) as real / 3.0))
  }

  /** For b > 0, the quotient a / b is above (below) t exactly when a is
      above (below) t * b. */
  lemma QuotientCompare(a: real, b: real, t: real)
    requires b > 0.0
    ensures a / b > t <==> a > t * b
    ensures a / b < t <==> a < t * b
  {
    var q := a / b;
    assert q * b == a;
    if q > t {
      assert (q - t) * b > 0.0;
    } else if q < t {
      assert (t - q) * b > 0.0;
    }
  }

  /** Liabilities over total income. */
  function DebtToIncomeRatio(u: UserData): (r: Result<real>)
    ensures r.Err? <==> TotalIncome(u) == 0
    ensures r.Err? ==> r.error == ZeroDivision(DebtToIncome)
    ensures r.Ok? ==> r.value >= 0.0 && r.value * TotalIncome(u) as real == TotalLiabilities(u) as real
    ensures r.Ok? ==> (r.value > DebtThreshold <==> 5 * TotalLiabilities(u) > 2 * TotalIncome(u))
  {
    if TotalIncome(u) == 0 then Err(ZeroDivision(DebtToIncome))
    else
      var income, liabilities := TotalIncome(u) as real, TotalLiabilities(u) as real;
      QuotientCompare(liabilities, income, DebtThreshold);
      QuotientCompare(liabilities, income, 0.0);
      Ok(liabilities / income)
  }

  /** (income - expenses) / income. Negative, and not clamped, exactly when
      the expenses exceed the income; never above 1. */
  function SavingsRateOf(u: UserData): (r: Result<real>)
    ensures r.Err? <==> TotalIncome(u) == 0
    ensures r.Err? ==> r.error == ZeroDivision(SavingsRate)
    ensures r.Ok? ==> r.value * TotalIncome(u) as real == TotalIncome(u) as real - TotalExpenses(u) as real
    ensures r.Ok? ==> r.value <= 1.0
    ensures r.Ok? ==> (r.value < 0.0 <==> TotalExpenses(u) > TotalIncome(u))
    ensures r.Ok? ==> (r.value < SavingsRateThreshold <==> 5 * TotalExpenses(u) > 4 * TotalIncome(u))
  {
    if TotalIncome(u) == 0 then Err(ZeroDivision(SavingsRate))
    else
      var income := TotalIncome(u) as real;
      var rate := (income - TotalExpenses(u) as real) / income;
      assert rate * income == income - TotalExpenses(u) as real;
      QuotientCompare(income - TotalExpenses(u) as real, income, SavingsRateThreshold);
      QuotientCompare(income - TotalExpenses(u) as real, income, 0.0);
      QuotientCompare(income - TotalExpenses(u) as real, income, 1.0);
      Ok(rate)
  }

  /** One pass of the goal loop (main.py:83-99). */
  function ProjectGoal(g: Goal): (r: Result<Projection>)
    ensures r.Err? <==> g.years == 0
    ensures r.Err? ==> r.error == ZeroDivision(MonthlyContribution)
    ensures r.Ok? ==> r.value.name == g.name && r.value.presentTarget == g.target && r.value.years == g.years
    ensures r.Ok? ==> r.value.futureTarget == FutureValue(g.target as real, g.years, InflationRate)
    ensures r.Ok? ==> r.value.futureTarget >= g.target as real
    ensures r.Ok? ==> AccumulatedBalance(r.value.monthlyDeposit, ReturnRate / 12.0, 12 * g.years) == r.value.futureTarget
    ensures r.Ok? ==> (r.value.monthlyDeposit > 0.0 <==> g.target > 0)
  {
    var futureValue := FutureValue(g.target as real, g.years, InflationRate);
    var payment := MonthlySavings(futureValue, g.years, ReturnRate);
    if payment.Err? then Err(payment.error)
    else Ok(Projection(g.name, g.target, futureValue, payment.value, g.years))
  }

  /** The site of the first zero denominator `calculate_financials` meets. */
  function FirstFailure(u: UserData): Site
  {
    if TotalExpenses(u) == 0 then Liquidity
    else if TotalIncome(u) == 0 then DebtToIncome
    else MonthlyContribution
  }

  /** main.py `calculate_financials`. */
  method CalculateFinancials(u: UserData) returns (res: Result<Analysis>)
    ensures res.Err? <==> (TotalExpenses(u) == 0 || TotalIncome(u) == 0
                           || exists i :: 0 <= i < |u.goals| && u.goals[i].years == 0)
    ensures res.Err? ==> res.error == ZeroDivision(FirstFailure(u))
    ensures res.Ok? ==>
      && res.value.netWorth == TotalAssets(u) - TotalLiabilities(u)
      && LiquidityRatio(u) == Ok(res.value.liquidityRatio)
      && DebtToIncomeRatio(u) == Ok(res.value.debtToIncome)
      && SavingsRateOf(u) == Ok(res.value.savingsRate)
      && |res.value.goalProjections| == |u.goals|
      && (forall i :: 0 <= i < |u.goals| ==> ProjectGoal(u.goals[i]) == Ok(res.value.goalProjections[i]))
      && res.value.recommendations == RecommendationText(u, res.value.debtToIncome, res.value.savingsRate)
  {
    var assets := u.savings + u.investments + u.propertyValue;
    var liabilities := u.mortgage + u.creditCard + u.otherLoans;
    var netWorth := assets - liabilities;

    var income := u.fixedIncome + u.variableIncome;
    var expenses := u.mandatoryExpenses + u.discretionaryExpenses;
    if expenses == 0 {
      return Err(ZeroDivision(Liquidity));
    }
    var liquidity := u.savings as real / (expenses as real / 3.0);
    assert LiquidityRatio(u) == Ok(liquidity);
    if income == 0 {
      return Err(ZeroDivision(DebtToIncome));
    }
    var dti := liabilities as real / income as real;
    var savingsRate := (income as real - expenses as real) / income as real;
    assert DebtToIncomeRatio(u) == Ok(dti);
    assert SavingsRateOf(u) == Ok(savingsRate);

    var projections: seq<Projection> := [];
    var i := 0;
    while i < |u.goals|
      invariant 0 <= i <= |u.goals|
      invariant |projections| == i
      invariant forall j :: 0 <= j < i ==> ProjectGoal(u.goals[j]) == Ok(projections[j])
      invariant forall j :: 0 <= j < i ==> u.goals[j].years != 0
    {
      var goal := u.goals[i];
      var futureValue := FutureValue(goal.target as real, goal.years, InflationRate);
      var monthlyPayment := MonthlySavings(futureValue, goal.years, ReturnRate);
      if monthlyPayment.Err? {
        assert u.goals[i].years == 0;
        return Err(monthlyPayment.error);
      }
      assert ProjectGoal(goal) == Ok(Projection(goal.name, goal.target, futureValue, monthlyPayment.value, goal.years));
      projections := projections + [Projection(goal.name, goal.target, futureValue, monthlyPayment.value, goal.years)];
      i := i + 1;
    }

    assert forall j :: 0 <= j < |u.goals| ==> u.goals[j].years != 0;
    var recommendations := GenerateRecommendations(u, netWorth, dti, savingsRate);
    res := Ok(Analysis(netWorth, liquidity, dti, savingsRate, projections, recommendations));
  }
}
