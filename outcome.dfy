/** Failure values of the financial engine. Python raises ZeroDivisionError
    and the whole analysis stops; the model returns an Err naming the
    division that failed. */
module Outcome {

  /** Which division of the engine hit a zero denominator. */
  datatype Site =
    | Liquidity            // savings / (expenses / 3)
    | DebtToIncome         // liabilities / income
    | SavingsRate          // (income - expenses) / income
    | MonthlyContribution  // fv * r / ((1 + r)^n - 1)

  datatype Error = ZeroDivision(site: Site)

  datatype Result<+T> = Ok(value: T) | Err(error: Error)
}
