# Financial planning engine: a verified Dafny model

This project models the calculation core of a Streamlit financial-planning
advisor, all of it in `main.py`:

- **Time-value helpers.** `calculate_future_value` compounds a present amount
  at a yearly inflation rate. `calculate_monthly_savings` gives the level
  monthly deposit of an ordinary annuity that reaches a future amount.
- **Metrics engine.** `calculate_financials` reads the client's flat record
  (income, expenses, assets, liabilities, age, goals). It computes net worth,
  the liquidity ratio, the debt-to-income ratio and the savings rate. It then
  builds one projection per goal, at 5% inflation and a 10% return.
- **Rule engine.** `generate_recommendations` applies up to three threshold
  rules in a fixed order: emergency fund, debt, savings rate. It always adds
  an asset-allocation line last, then joins the messages with a blank line.
- **PDF text sanitiser.** `clean_text_for_pdf` applies an ordered substitution
  table with `str.replace`. It then drops every character at or above code
  point 256, so that the text fits Latin-1 (ISO-8859-1).

Files:

- `outcome.dfy` holds the `Result` and `Error` types. Python raises
  `ZeroDivisionError` and the run stops. The model returns
  `Err(ZeroDivision(site))`, where the site names the division that failed.
- `timevalue.dfy` holds `Pow`, `FutureValue`, `MonthlySavings` and the
  month-by-month annuity `AccumulatedBalance`, which serves as their
  reference definition.
- `client.dfy` holds the input record.
- `text.dfy` models `str(n)`, `f"{n:,.0f}"` on integers, `str.join` and
  `str.split`.
- `messages.dfy` holds the fixed texts of the four messages.
- `recommendations.dfy` holds the rules, how each message is rendered, and
  the method that appends them.
- `metrics.dfy` holds the ratios, the per-goal projection and the method with
  the goal loop.
- `pdftext.dfy` holds the substitution table, `str.replace`, and the method
  with both loops of the sanitiser.

Amounts are exact `real`s. The form gives only non-negative integer amounts
(main.py:446-474), so they are `nat` in the input record.

Where the design notes and the code disagree, the model follows the code:

- **Zero annual return.** The design asks for a straight-line fallback when
  the return is 0. The code has none and divides by zero, so the model
  returns an error. `AccumulatedBalanceZeroRate` shows what the fallback
  would be: `n * deposit`.
- **Zero denominators in the ratios.** The design asks for an "undefined"
  marker on each ratio and partial results. In the code the first zero
  denominator aborts the whole analysis. The checks run in source order:
  expenses (line 76), then income (line 77), then each goal's payment. The
  model does the same.
- **Equity share.** The design asks for the equity percentage to be clamped
  to [0, 100]. The code computes `min(90, 110 - usia)` with no clamp, so it
  is negative past age 110. The model keeps the code's behaviour.
- **Substitution table.** Python reads lines 245-248 of the table as two
  entries, not four. Lines 245 and 246 give the ASCII double quote twice,
  mapped to itself; a dict keeps one entry. Lines 247-248 start with three
  apostrophes, so they open a triple-quoted string. They form ONE entry:
  15 characters (`: "'",`, a line break and eight spaces) mapped to an
  apostrophe. The model uses the table this way. The quote entry is the
  identity (`ReplaceSelf`). The repeated infinity key of line 281 stays at
  its first position (line 258). The table has 93 entries.
- **Line breaks in the sanitised text.** The triple-quoted key is the only
  key with a line break. So on a text without line breaks the sanitiser works
  character by character (`CleanTextConcat`, `CleanTextChar`): a character
  with a one-character key becomes its value, and any other character is kept
  if it is below 256 and dropped otherwise. The warning sign's two-character
  key (line 235) does not break this, because both of its characters are
  dropped either way. On a text with a line break the sanitiser does not
  work character by character. The 15-character key replaces all of its
  characters, Latin-1 ones included, by one apostrophe. Deleting an emoji can
  also create the key: in `:💡 "'",` followed by a line break and eight spaces,
  the bulb is removed first and the rest then becomes the key.

## Model

| member | source | states |
|---|---|---|
| `TimeValue.FutureValue` | main.py:55-57 | with zero years the result is the present value; with a present value ≥ 0 and inflation ≥ 0 the result is at least the present value; it is positive when the present value is positive |
| `TimeValue.FutureValueMonotone` | main.py:55-57 | with a present value ≥ 0 and inflation ≥ 0, a longer horizon never gives a smaller future value |
| `TimeValue.FutureValueCompose` | main.py:55-57 | compounding for a years and then b more years equals compounding for a + b years |
| `TimeValue.FutureValueScenario` | main.py:55-57 | 100,000,000 at 5% for 10 years is between 162,889,462 and 162,889,463 |
| `TimeValue.MonthlySavings` | main.py:59-63 | fails with ZeroDivisionError exactly when years = 0, the rate = 0 or the rate = -24 (then 1 + r = -1); otherwise depositing the result monthly for 12 × years months at rate/12 accumulates exactly the future value; for a positive rate the deposit is positive exactly when the future value is |
| `TimeValue.DenominatorZeroIff` | main.py:61-63 | the denominator (1 + rate/12)^(12·years) − 1 is zero exactly when years = 0, rate = 0 or rate = −24 |
| `TimeValue.AccumulatedBalanceClosedForm` | main.py:63 | n monthly deposits p at monthly rate r accumulate B with B · r = p · ((1 + r)^n − 1), the annuity identity the formula inverts |
| `TimeValue.AccumulatedBalanceZeroRate` | main.py:59-63 | at rate 0, n deposits add up to n · deposit: the straight-line case the code does not special-case |
| `Metrics.LiquidityRatio` | main.py:76 | fails exactly when total expenses are 0; otherwise ratio × expenses = 3 × savings and the ratio is ≥ 0 |
| `Metrics.DebtToIncomeRatio` | main.py:77 | fails exactly when total income is 0; otherwise ratio × income = liabilities, the ratio is ≥ 0, and it exceeds 0.4 exactly when 5 × liabilities > 2 × income |
| `Metrics.SavingsRateOf` | main.py:78 | fails exactly when income is 0; otherwise rate × income = income − expenses, the rate is ≤ 1, negative exactly when expenses exceed income (no clamping), and below 0.2 exactly when 5 × expenses > 4 × income |
| `Metrics.ProjectGoal` | main.py:83-99 | fails exactly when the goal's horizon is 0 years; otherwise copies name, target and horizon; the future target is the 5%-inflated target and is at least the target; depositing the monthly payment at 10%/12 for 12 × years months reaches the future target; the payment is positive exactly when the target is |
| `Metrics.CalculateFinancials` | main.py:65-111 | fails exactly when expenses = 0, income = 0 or some goal has 0 years, naming the first failing division in source order; otherwise net worth = assets − liabilities (may be negative), the three ratios are those above, there is one projection per goal in input order, and the recommendations are built from the unrounded debt ratio and savings rate |
| `Recommendations.EquityPercent` | main.py:132 | the equity share is min(90, 110 − age): at most 90 and at most 110 − age, equal to one of them; for ages 18 to 100 it lies in [10, 90] |
| `Recommendations.Rules` | main.py:113-133 | the recommendations `generate_recommendations` collects for a client, debt ratio and savings rate, in order; what the rules promise is stated by `RulesProperties` |
| `Recommendations.RulesProperties` | main.py:113-133 | one to four recommendations; the emergency-fund message is present exactly when savings < 6 × expenses and carries 6 × expenses; the debt message exactly when dti > 0.4; the savings message exactly when the savings rate < 0.2; the rules appear in that fixed order; the allocation line, with equity + fixed income = 100, is always last and only last |
| `Recommendations.RenderSingleLine` | main.py:121-133 | no recommendation message contains a line break |
| `Recommendations.Render` | main.py:121-133 | the exact text of each message: the emergency message with the reserve in thousands-grouped digits and the allocation line with both percentages in decimal; `RenderSingleLine` states that none holds a line break |
| `Recommendations.RecommendationParagraphs` | main.py:135 | splitting the joined text on the blank line gives back exactly the rule messages, so there are between 1 and 4 paragraphs |
| `Recommendations.GenerateRecommendations` | main.py:113-135 | the text is the rule messages joined by a blank line, and it splits back into those messages |
| `Text.Grouped` | main.py:121 | `f"{n:,.0f}"` on a natural number: only digits and commas, starting with a digit that is not a leading zero (unless n = 0) |
| `Text.GroupedRoundTrip` | main.py:121 | reading back the digits of the thousands-grouped rendering of n gives n |
| `Text.DecimalRoundTrip` | main.py:133 | reading back the digits of str(n) gives n |
| `Text.IntToString` | main.py:133 | `str(i)` on an integer: only digits and the minus sign; `DecimalRoundTrip` states that the digits read back as the number |
| `Text.Join` | main.py:135 | `sep.join(parts)`; `SplitJoin` states that splitting on the separator undoes it |
| `Text.SplitJoin` | main.py:135 | splitting the join of parts on the separator gives back the parts, when no part contains the separator's first character |
| `PdfText.CleanTextForPdf` | main.py:230-339 | the result is the table applied in order, then the wide characters dropped; every character of the result is below 256 |
| `PdfText.DropWide` | main.py:337 | the output is Latin-1, never longer than the input, and a Latin-1 input passes through unchanged |
| `PdfText.DropWideConcat` | main.py:337 | dropping wide characters splits over concatenation, so the kept characters keep their relative order |
| `PdfText.Replace` | main.py:334 | `str.replace` scanning left to right over non-overlapping occurrences, an empty key inserting the value around every character; its properties are stated by the `Replace…` lemmas below |
| `PdfText.ApplyAll` | main.py:333-334 | the substitutions of a table applied one after another, in table order; its properties are stated by `ApplyAllUnchanged`, `ApplyAllRemoves`, `OrdinaryConcat` and `OrdinaryChar` |
| `PdfText.ReplaceAbsent` | main.py:334 | replacing a key that does not occur leaves the text unchanged |
| `PdfText.ReplaceSelf` | main.py:245-246 | an entry mapping a key to itself changes nothing |
| `PdfText.ReplaceCharSingle` | main.py:334 | for a one-character key, the key character becomes the value and any other character is kept |
| `PdfText.ReplaceCharConcat` | main.py:334 | replacing a one-character key splits over concatenation, so every occurrence becomes the value |
| `PdfText.ReplaceRemovesChar` | main.py:334 | after replacing a one-character key with a value that lacks it, the character is gone |
| `PdfText.ReplaceKeepsAbsent` | main.py:334 | replacing never introduces a character absent from both the text and the value |
| `PdfText.ApplyAllUnchanged` | main.py:333-334 | a text where every key is absent or mapped to itself comes out of the table unchanged |
| `PdfText.ApplyAllRemoves` | main.py:333-334 | a one-character key, when neither its value nor any later value contains it, is absent from the table's output |
| `PdfText.ValuesAscii` | main.py:233-330 | every replacement value in the table is ASCII |
| `PdfText.CleanTextUnchanged` | main.py:332-339 | a Latin-1 text in which no key occurs, except keys mapped to themselves, is returned unchanged |
| `PdfText.RestOrdinary` | main.py:238-329 | every entry after the four emoji has a printable ASCII value, and its key maps to itself, holds a line break, or is one character outside ASCII |
| `PdfText.OrdinaryConcat` | main.py:333-334 | on texts without line breaks, a table of such entries splits over concatenation |
| `PdfText.OrdinaryChar` | main.py:333-334 | on one character other than a line break, a table of such entries gives the value of the first entry keyed by that character, or the character itself |
| `PdfText.ReplaceInvisible` | main.py:235 | deleting a key that the later entries and the drop of wide characters turn into nothing changes nothing, once the wide characters are dropped: the warning-sign entry |
| `PdfText.CleanTextPlain` | main.py:332-339 | on a text without line breaks, the sanitiser gives the same result as the table without its warning-sign entry |
| `PdfText.CleanTextConcat` | main.py:332-339 | on texts without line breaks the sanitiser splits over concatenation: each character is cleaned on its own and the results keep their order |
| `PdfText.CleanTextChar` | main.py:332-339 | a character other than a line break becomes the value of the first entry keyed by it, if there is one; otherwise it is kept when below 256 and dropped when not |
| `PdfText.CleanTextRemovesLatin1Keys` | main.py:250-253 | the degree, plus-minus, times and division signs are below 256 but are substituted: none is left in any output |

## Left out

- The Streamlit UI and session state are not modelled: `main`, `client_info_form`, `show_financial_analysis` and `ai_chat_section` (main.py:389-585). The form's rule that only goals with a non-empty name are kept (main.py:477) is not modelled either; the engine accepts any goal name.
- `plot_goals` (main.py:137-178) is not modelled: it only draws a Plotly chart.
- `get_ai_response` (main.py:181-208) is not modelled: it is an HTTP call to an external completion service.
- `PDFReport` and `generate_pdf_report` (main.py:211-386) are not modelled: they are FPDF layout calls with a wall-clock date and a Latin-1 encode. Only their text sanitiser is modelled.
- Metrics.CalculateFinancials: the `round` at main.py:106-107 is not modelled, because it is Python's banker's rounding on IEEE doubles. The analysis keeps the unrounded liquidity and debt ratios. The recommendations use the unrounded debt ratio, as the source does.
- Floating point is not modelled, because amounts are exact reals. The source's `**`, divisions and the zero test behind ZeroDivisionError use IEEE doubles. So a denominator that rounds to 0.0, or a result that overflows, is not captured.
- PdfText.CleanTextConcat: stated only for texts without line breaks. On a text with a line break the sanitiser does not work character by character (see the line-break note above), and the model does not describe that case character by character. `CleanTextForPdf` and `CleanTextRemovesLatin1Keys` cover every text.
- Text.Grouped: `f"{n:,.0f}"` first converts the integer to a double. The model renders the exact integer, so amounts above 2^53 may differ in their last digits.
- TimeValue.MonthlySavings: horizons are natural numbers. A negative number of years is not modelled, because the form requires at least 1 (main.py:474).
- The record keys `nama`, `usia_pensiun`, `status_keluarga` and `risk_profile` are not modelled, because the engine does not read them. A goal's `prioritas` is carried in `Client.Goal` but never read by the engine.
