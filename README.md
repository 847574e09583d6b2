# Savings projection engine, modelled in Dafny

This project models the calculation core of a retirement-savings calculator
(`src/App.jsx`). Given a starting capital, a monthly contribution, an annual
interest rate and an annual inflation rate (both in percent), plus the saver's
current and retirement ages, the application does three things:

- It derives the saving horizon `anios = max(edadRetiro - edadActual, 1)`.
- It builds one row per year `0..anios` (`calcTimeline`). Each row holds:
  - the invested capital (a straight-line sum of contributions);
  - the nominal value: the initial capital compounded monthly, plus the future value of an ordinary annuity of monthly deposits, with a linear branch when the rate is not positive;
  - the real value: the nominal value divided by `(1 + inf)^t`.
  
  All of them pass through `Math.round`.
- It reads the final-year summary (`resultado`) and the two donut slices off the last row. The CSV export writes the same rows below a header.

Modules, one per component of the source:

- `Numeric` (numeric.dfy) holds exact exponentiation by a natural number, `Math.round` as `floor(x + 1/2)`, Bernoulli's inequality, and the monotonicity facts the proofs use.
- `Text` (text.dfy) holds the decimal rendering of integers (`String(n)`), `join` with a separator, and their inverses `ParseInt` and `Split`. The inverses let the properties of the rendered text be stated.
- `Engine` (timeline.dfy) models `calcTimeline`:
  - `YearRow` and `Timeline` are the per-year formulas and the whole projection as values.
  - `CalcTimeline` is the source's `for`/`push` loop, proved equal to `Timeline`.
  - The lemmas state the promised properties.
- `Summary` (summary.dfy) models the horizon, the summary, the donut data, and the derivation from inputs to the figures shown (`Project`).
- `Csv` (csv.dfy) models the text assembled by the CSV export, with a reader `DecodeCsv`. The reader is not part of the application: it states what the text contains.

`calcTimeline` validates nothing, and the model has no error path either. Negative amounts and rates flow through the formulas, and a rate that is not positive takes the linear branch. Properties that hold only for non-negative inputs say so in their `requires`. `Engine.NominalValue` divides by the monthly rate only inside the positive-rate branch. Dafny checks every divisor, so the zero-rate branch provably never divides by zero.

Arithmetic is exact over `real`. Every exponent in the source is a natural number (`12·t` and `t`), so `Math.pow` becomes recursive multiplication and division is exact.

For 10000 plus 500 a month at 8 % over one year, the formula gives 17054.96, which rounds to 17055. At 3 % inflation the real value is 16558. `Engine.OneYearExample` proves both.

## Model

| member | source | states |
|---|---|---|
| `Numeric.Round` | src/App.jsx:43-45 | `Math.round` returns an integer within half a unit of its argument, with halves going up |
| `Numeric.Bernoulli` | src/App.jsx:32 | the growth factor satisfies `(1 + x)^k >= 1 + k·x` for `x >= -1`, which is what keeps interest from destroying principal |
| `Numeric.PowMonotoneInExponent` | src/App.jsx:32 | with a base of at least one, the factor never shrinks as the exponent grows |
| `Engine.CalcTimeline` | src/App.jsx:24-49 | the loop returns exactly the rows of years `0..anios` in order; each row is the per-year row of its year, and no rows are returned when `anios < 0` |
| `Engine.TimelineShape` | src/App.jsx:29-47 | there are `anios + 1` rows, and row `i` has year `i`; its label is `"Año "` followed by text that reads back as `i` |
| `Engine.FirstRow` | src/App.jsx:32-45 | in year 0, invested, nominal and real are all `Math.round(capitalInicial)` |
| `Engine.InvestedIgnoresRates` | src/App.jsx:36-43 | two parameter sets with the same capital and contribution give the same invested capital, whatever the interest and inflation rates |
| `Engine.ZeroRateIsInvestedCapital` | src/App.jsx:33-36 | with a zero rate, the nominal value is exactly the invested capital, before and after rounding |
| `Engine.AnnuityAtLeastContributions` | src/App.jsx:32-34 | for a positive rate, the annuity multiplier `(factor - 1)/(r/12)` is at least the number of deposits `12·t` |
| `Engine.NominalAtLeastInvested` | src/App.jsx:32-44 | with non-negative capital, contribution and rate, nominal ≥ invested for every year, both exact and rounded |
| `Engine.FactorMonotone` | src/App.jsx:32 | with a non-negative rate, the growth factor is at least one and never decreases from one year to a later one |
| `Engine.NominalValueMonotone` | src/App.jsx:30-35 | with non-negative inputs, the exact nominal value never decreases from one year to a later one |
| `Engine.InvestedCapitalMonotone` | src/App.jsx:36 | with a non-negative contribution, the invested capital never decreases from one year to a later one |
| `Engine.NominalMonotone` | src/App.jsx:30-44 | the rounded nominal value and the rounded invested capital never decrease from row to row |
| `Engine.RealAtMostNominal` | src/App.jsx:37-45 | with non-negative inflation and a non-negative nominal value, real ≤ nominal, both exact and rounded |
| `Engine.ZeroInflationIsNominal` | src/App.jsx:37-45 | with zero inflation, the real value equals the nominal value |
| `Engine.TimelineOrdered` | src/App.jsx:29-47 | across the projection, for rows `i <= j`: nominal and invested do not decrease; row `j` has nominal ≥ invested, and real ≤ nominal when inflation is non-negative |
| `Engine.RealAtMostNominalForInputs` | src/App.jsx:32-45 | with non-negative capital, contribution, rate and inflation, every year's rounded real value is at most its rounded nominal value |
| `Engine.OneYearExample` | src/App.jsx:24-49 | 10000 initial, 500 a month, 8 %, 3 % inflation, one year gives rows `(0, 10000, 10000, 10000)` and `(1, 16000, 17055, 16558)` |
| `Engine.ZeroRateExample` | src/App.jsx:33-45 | 0 initial, 100 a month, no interest and no inflation give 2400 in all three columns in year 2 |
| `Text.IntToStringRoundTrip` | src/App.jsx:140 | the decimal text of an integer reads back as the same integer |
| `Text.Split` | src/App.jsx:140 | splitting on a separator gives at least one piece, no piece contains the separator, and joining the pieces gives the text back |
| `Text.SplitJoin` | src/App.jsx:140 | joining pieces without the separator and splitting again gives the same pieces |
| `Summary.Horizon` | src/App.jsx:200 | the horizon is at least one year; it is the age difference when that is positive and one otherwise |
| `Summary.Project` | src/App.jsx:200-213 | the projection is never empty: it has `anios + 1 >= 2` rows, so the final row always exists |
| `Summary.SummaryIsFinalYear` | src/App.jsx:207-213 | the summary is the row of the horizon year, and interest = nominal − invested |
| `Summary.DonutData` | src/App.jsx:215-218 | two slices: the invested capital, then `max(intereses, 0)`, which is never negative |
| `Summary.InterestNonNegative` | src/App.jsx:207-217 | with non-negative inputs, interest ≥ 0, the donut shows it unclamped, and the two slices add up to the nominal value |
| `Summary.ZeroRateEarnsNothing` | src/App.jsx:207-213 | with a zero rate, the interest earned is 0 |
| `Summary.RealAtMostNominalAtHorizon` | src/App.jsx:207-213 | with non-negative inputs and inflation, the final real value never exceeds the final nominal value |
| `Summary.HorizonExamples` | src/App.jsx:192-200 | the default ages 30 and 65 give 35 years; equal or inverted ages give 1 |
| `Csv.HeaderText` | src/App.jsx:138 | the header line is `Año,Capital Invertido,Valor Nominal,Valor Real` |
| `Csv.RowLines` | src/App.jsx:139 | one line per row, and line `i` is row `i`'s line |
| `Csv.RowLineRoundTrip` | src/App.jsx:139-140 | a row's line holds no line break, and reading it back gives the row's year and three amounts |
| `Csv.CsvLines` | src/App.jsx:138-140 | the text splits into exactly `rows + 1` lines: the header, then every row in order |
| `Csv.CsvRoundTrip` | src/App.jsx:138-140 | reading the text back gives the numbers of every row, in order and unchanged |
| `Csv.NoTrailingNewline` | src/App.jsx:140 | the text is non-empty and does not end with a line break |

## Left out

- React rendering, hooks and `useMemo` (src/App.jsx:51-133, 191-452) are presentation. `Summary.Project` models the values the component derives.
- The charts (recharts) are a foreign library.
- `fmt` and `fmtShort` (src/App.jsx:13-20) are locale and floating-point formatting.
- The Blob, object-URL and anchor download in `exportCSV` (src/App.jsx:141-147) are browser I/O. Only the CSV text is modelled.
- `exportPDF` (src/App.jsx:150-187) is left out: it loads jsPDF asynchronously, a foreign library.
- IEEE-754 rounding of `Math.pow`, `*` and `/`. The model computes exactly over `real`, so a value within a rounding error of a half may round differently in the browser.
- Overflow to `Infinity` is left out: the browser overflows past about 1.8e308, and the model's values are unbounded.
- The slider and input bounds (src/App.jsx:262-291) are hints of the controls; the engine does not enforce them. Properties that need non-negative inputs state that in their `requires`.
- `tailwind.config.js` is styling configuration.
- Engine.RealValue: excludes an inflation rate of exactly -100 %. From year 1 on, JavaScript divides by zero there and produces Infinity or NaN, which `real` cannot represent.
- Summary.Inputs: the ages are whole numbers. The number inputs could hold fractions, and then the loop would run `floor(anios) + 1` times.
- Text.IntToString: writes every integer in full. JavaScript writes amounts of 10^21 or more in magnitude in exponent notation, and a typed input can reach them.
- The row label `Año y` is modelled, and only the chart axis uses it. The chart's tick interval `Math.floor(anios / 5)` is presentation.
- Determinism (same inputs, same rows) holds by construction, because every member is a function of its arguments. There is no separate lemma for it.
