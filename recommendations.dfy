/** main.py `generate_recommendations`: threshold rules evaluated in a fixed
    order, an asset-allocation line always last, the messages joined by a
    blank line. */
module Recommendations {
  import opened Client
  import opened Text
  import opened Messages

  /** The debt rule fires strictly above this debt-to-income ratio. */
  const DebtThreshold: real := 0.4
  /** The savings rule fires strictly below this savings rate. */
  const SavingsRateThreshold: real := 0.2
  /** `"\n\n".join(recs)` */
  const Separator: string := "\n\n"

  /** One recommendation, by rule; Render gives its exact text. */
  datatype Advice =
    | EmergencyFund(reserve: nat)
    | ControlDebt
    | RaiseSavingsRate
    | Allocation(equity: int, fixedIncome: int)

  /** Position of each rule in the evaluation order. */
  function Rank(a: Advice): nat
  {
    match a
    case EmergencyFund(_) => 0
    case ControlDebt => 1
    case RaiseSavingsRate => 2
    case Allocation(_, _) => 3
  }

  /** `min(90, 110 - usia)`: no clamp below, so it is negative past age 110. */
  function EquityPercent(age: int): (e: int)
    ensures e <= 90 && e <= 110 - age
    ensures e == 90 || e == 110 - age
    ensures 18 <= age <= 100 ==> 10 <= e <= 90
  {
    if 110 - age < 90 then 110 - age else 90
  }

  /** The recommendations, in order, for the given client, debt-to-income
      ratio and savings rate (the unrounded values passed at main.py:102). */
  function Rules(u: UserData, dti: real, savingsRate: real): seq<Advice>
  {
    var reserve := 6 * TotalExpenses(u);
    var equity := EquityPercent(u.age);
    (if u.savings < reserve then [EmergencyFund(reserve)] else [])
    + (if dti > DebtThreshold then [ControlDebt] else [])
    + (if savingsRate < SavingsRateThreshold then [RaiseSavingsRate] else [])
    + [Allocation(equity, 100 - equity)]
  }

  /** Each rule fires exactly when its threshold is crossed, in the fixed
      order, and the allocation line is always the last and only the last. */
  lemma RulesProperties(u: UserData, dti: real, savingsRate: real)
    ensures var rs := Rules(u, dti, savingsRate);
      && 1 <= |rs| <= 4
      && rs[|rs| - 1] == Allocation(EquityPercent(u.age), 100 - EquityPercent(u.age))
      && (forall i :: 0 <= i < |rs| - 1 ==> !rs[i].Allocation?)
      && (EmergencyFund(6 * TotalExpenses(u)) in rs <==> u.savings < 6 * TotalExpenses(u))
      && (forall a :: a in rs && a.EmergencyFund? ==> a.reserve == 6 * TotalExpenses(u))
      && (ControlDebt in rs <==> dti > DebtThreshold)
      && (RaiseSavingsRate in rs <==> savingsRate < SavingsRateThreshold)
      && (forall i, j :: 0 <= i < j < |rs| ==> Rank(rs[i]) < Rank(rs[j]))
  {
  }

  /** The exact message of each rule. */
  function Render(a: Advice): string
  {
    match a
    case EmergencyFund(reserve) => EmergencyHead + Grouped(reserve) + EmergencyTail
    case ControlDebt => DebtMessage
    case RaiseSavingsRate => SavingsMessage
    case Allocation(equity, fixedIncome) =>
      AllocationHead + IntToString(equity) + EquityTail + IntToString(fixedIncome) + FixedIncomeTail
  }

  /** No message contains a line break, so the blank-line separator is
      unambiguous. */
  lemma RenderSingleLine(a: Advice)
    ensures '\n' !in Render(a)
  {
    match a
    case EmergencyFund(_) => EmergencySingleLine();
    case ControlDebt => DebtMessageSingleLine();
    case RaiseSavingsRate => SavingsMessageSingleLine();
    case Allocation(_, _) => AllocationSingleLine();
  }

  /** The message of each recommendation, in order. */
  function RenderAll(rs: seq<Advice>): seq<string>
  {
    seq(|rs|, i requires 0 <= i < |rs| => Render(rs[i]))
  }

  /** The string `generate_recommendations` returns. */
  function RecommendationText(u: UserData, dti: real, savingsRate: real): string
  {
    Join(RenderAll(Rules(u, dti, savingsRate)), Separator)
  }

  /** The joined text splits back on the blank line into exactly the rule
      messages, so it holds between one and four paragraphs. */
  lemma RecommendationParagraphs(u: UserData, dti: real, savingsRate: real)
    ensures Split(RecommendationText(u, dti, savingsRate), Separator) == RenderAll(Rules(u, dti, savingsRate))
    ensures 1 <= |Split(RecommendationText(u, dti, savingsRate), Separator)| <= 4
  {
    RulesProperties(u, dti, savingsRate);
    var ms := RenderAll(Rules(u, dti, savingsRate));
    forall i | 0 <= i < |ms| ensures Separator[0] !in ms[i] {
      RenderSingleLine(Rules(u, dti, savingsRate)[i]);
    }
    SplitJoin(ms, Separator);
  }

  /** The rule engine as main.py writes it: conditional appends to a list,
      then a join. `netWorth` is passed by the source and not used. */
  method GenerateRecommendations(u: UserData, netWorth: int, dti: real, savingsRate: real)
    returns (text: string)
    ensures text == RecommendationText(u, dti, savingsRate)
    ensures Split(text, Separator) == RenderAll(Rules(u, dti, savingsRate))
  {
    var recs: seq<string> := [];
    var monthlyExpenses := u.mandatoryExpenses + u.discretionaryExpenses;
    var emergencyFund := monthlyExpenses * 6;
    // The advice rendered so far, built alongside recs as Rules builds it.
    ghost var advice: seq<Advice> := if u.savings < emergencyFund then [EmergencyFund(emergencyFund)] else [];
    if u.savings < emergencyFund {
      recs := recs + [Render(EmergencyFund(emergencyFund))];
    }
    RenderAllOptional(u.savings < emergencyFund, EmergencyFund(emergencyFund));
    assert recs == RenderAll(advice);
    if dti > DebtThreshold {
      RenderAllSnoc(advice, ControlDebt);
      recs := recs + [Render(ControlDebt)];
      advice := advice + [ControlDebt];
    }
    if savingsRate < SavingsRateThreshold {
      RenderAllSnoc(advice, RaiseSavingsRate);
      recs := recs + [Render(RaiseSavingsRate)];
      advice := advice + [RaiseSavingsRate];
    }
    var equityPct := EquityPercent(u.age);
    RenderAllSnoc(advice, Allocation(equityPct, 100 - equityPct));
    recs := recs + [Render(Allocation(equityPct, 100 - equityPct))];
    advice := advice + [Allocation(equityPct, 100 - equityPct)];
    assert advice == Rules(u, dti, savingsRate);
    text := Join(recs, Separator);
    RecommendationParagraphs(u, dti, savingsRate);
  }

  lemma RenderAllOptional(b: bool, a: Advice)
    ensures RenderAll(if b then [a] else []) == if b then [Render(a)] else []
  {
  }

  lemma RenderAllSnoc(rs: seq<Advice>, a: Advice)
    ensures RenderAll(rs + [a]) == RenderAll(rs) + [Render(a)]
  {
    var r := RenderAll(rs + [a]);
    assert |r| == |rs| + 1;
    assert forall i :: 0 <= i < |r| ==> r[i] == (RenderAll(rs) + [Render(a)])[i];
  }
}
