# Commission tracking core, in Dafny

A model of the decision logic of a small Flask app. The app tracks sales made by collaborators (commission-earning sales agents), the installment a client owes on each sale, and the collaborator's commission payout. The model covers:

- `add_months`, the calendar month offset that clamps the day (module `DateArith`, on the dates of module `Calendar`);
- `compute_commission_multiplier` and `compute_collaborator_receipt_date`, the tier lookup and the payout schedule (module `Commission`);
- the installment record from `models.py` and the field updates made when the client pays and when the collaborator is paid (module `Installments`);
- collaborator and sale registration over a store of three tables (module `Store`);
- the monthly paid total, tier and commission shown on the collaborator page (module `MonthlySummary`).

Modelling choices:

- Dates are `Date(year, month, day)`. `Calendar.Valid` accepts exactly what Python's `date(year, month, day)` accepts, including the year range 1..9999.
- Money is `real`, so sums and the 1.2/1.4/1.6 multipliers are exact.
- Python's `//` and `%` by 12 are Dafny's `/` and `%`: both floor for a positive divisor, so negative offsets carry over unchanged.
- Rows are never deleted, so the row with id `k` is element `k - 1` of its table. New ids are the table length plus one.
- Clock reads and form parsing become parameters. A missing form field is `None`, an empty string, or a zero amount.
- Failures are `Result` values. `NotFound` covers a missing installment or collaborator row. `MissingField` is the "fill in all fields" refusal. `ReceiptDateOutOfRange` is the overflow described under Findings.

The validation modelled is the code's own, which is looser than one might expect:

- `sale_new` does not check that the collaborator exists.
- `sale_new` rejects a zero amount but accepts a negative one (`Store.RegisterSaleDoesNotCheckCollaborator`).
- `collaborator_new` rejects an empty name, not a blank one.

## Model

| member | source | states |
|---|---|---|
| DateArith.TargetYear | app.py:17 | the floor-division year is the year that holds the month `n` months from the date's month |
| DateArith.TargetMonth | app.py:18 | the modulo month is in 1..12 and differs from the date's month plus `n` by a whole number of years |
| DateArith.TargetMonthIndex | app.py:17-18 | the floor-division year and modulo month land exactly `n` months from the original month, for every integer `n` |
| DateArith.ClampDay | app.py:19-24 | stepping the day down stops at a day in 1..days-in-month, no larger than the start day, and equal to it or to the month's last day |
| DateArith.AddMonths | app.py:16-24 | the result is a valid date `n` months on (month index arithmetic), with a day no larger than the original; a day up to 28 is always kept, and any day is kept exactly when it exists in the target month, otherwise it is the month's last day; fails exactly when the target year leaves 1..9999 |
| DateArith.AddMonthsZero | app.py:16-24 | adding zero months to a valid date returns it unchanged |
| DateArith.AddMonthsDay | app.py:19-24 | the result's day is the original day if it fits the target month, else the target month's last day |
| DateArith.AddMonthsRoundTrip | app.py:16-24 | going `n` months forward then `n` back returns to the original year and month with a day no larger; the round trip is exact when the day fitted the intermediate month |
| DateArith.TryDaysNeverReturns | app.py:20-24 | outside years 1..9999 the retry loop as written never returns, however many rounds it runs |
| DateArith.TryDays | app.py:20-24 | up to `fuel` rounds of the retry loop as written: a date it returns is valid, in the month tried, and one of the days tried (no later than the start day, fewer than `fuel` days below it) |
| DateArith.AddMonthsAsWritten | app.py:16-24 | `add_months` as written, run for a bounded number of rounds: any date it returns is valid, exactly `n` months on, and no later in its month than the original day |
| DateArith.TryDaysReturnsClamped | app.py:20-24 | inside the year range the retry loop returns the clamped day once given enough rounds |
| DateArith.AddMonthsMatchesLoop | app.py:16-24 | the corrected function returns what the loop as written returns whenever that loop returns a date, and fails exactly where the loop never returns one |
| DateArith.AddMonthsAsWrittenHangsAfterMaxYear | app.py:16-24 | one month after 31 December 9999, the loop never returns and the corrected function reports failure |
| Commission.Multiplier | app.py:26-32 | the multiplier is one of 1.2, 1.4, 1.6; 1.2 exactly when the total is at most 2000, 1.6 exactly when it exceeds 4000 |
| Commission.MultiplierBySteps | app.py:26-32 | the multiplier equals 1.2 plus 0.2 for each cap (2000, 4000) the total strictly exceeds |
| Commission.MultiplierMonotone | app.py:26-32 | a larger total never gets a lower multiplier |
| Commission.MultiplierBoundaries | app.py:27-29 | 2000 and 4000 go to the lower tier; 2000.01 and 4000.01 go to the next one |
| Commission.CommissionValue | app.py:90-91 | the unrounded commission `total * (multiplier - 1)` is 20% of the total up to 2000, 40% above 2000 up to 4000, and 60% above 4000, and has the total's sign |
| Commission.CommissionBounds | app.py:90-91 | for a non-negative total, the unrounded commission `total * (multiplier - 1)` is between 20% and 60% of the total |
| Commission.CommissionMonotone | app.py:90-91 | a larger monthly total never earns a smaller commission, negative totals included |
| Commission.ReceiptDate | app.py:34-39 | a payment on or before the 5th pays out on the 20th of the same month; a later one pays out on the 5th of the next month; the payout date is valid and strictly after the payment; fails only for a late payment in December 9999 |
| Commission.ReceiptDateDecemberRollover | app.py:37-39 | a late December payment pays out on 5 January of the next year |
| Commission.ReceiptDateNextMonth | app.py:37-39 | a late payment in January to November pays out on the 5th of the following month of the same year |
| Commission.ReceiptDateWithinOneMonth | app.py:34-39 | the payout falls in the payment's month or the next, on day 20 or day 5 |
| Commission.ReceiptDateMonotone | app.py:34-39 | if a later payment has a payout date, an earlier payment has one too, and it is no later |
| Commission.ReceiptDateExamples | app.py:34-39 | 2024-03-05 gives 2024-03-20; 2024-03-06 gives 2024-04-05; 2024-01-31 gives 2024-02-05; 2024-12-31 gives 2025-01-05 |
| Installments.FirstInstallment | app.py:135-140 | the created installment is unpaid on both sides and satisfies the payment-consistency invariant |
| Installments.MarkClientPaid | app.py:161-163 | sets the client-paid flag and date and stores exactly the payout date `compute_collaborator_receipt_date` gives for it, which is strictly after it; leaves the sale terms and the collaborator payment untouched; fails only when the payout date would overflow |
| Installments.MarkCollaboratorPaid | app.py:183-184 | sets only the collaborator-paid flag and date, whatever the client payment state |
| Installments.MarkClientPaidConsistent | app.py:161-163 | recording a client payment keeps flags, dates and the derived payout date consistent |
| Installments.MarkCollaboratorPaidConsistent | app.py:183-184 | recording the collaborator payment keeps the installment consistent |
| Installments.MarkClientPaidLastWriteWins | app.py:161-163 | two client payments leave exactly what the second alone would |
| Installments.MarkCollaboratorPaidLastWriteWins | app.py:183-184 | two collaborator payments leave exactly what the second alone would |
| Installments.PaymentsCommute | app.py:161-184 | the client payment and the collaborator payment touch disjoint fields, so their order does not matter |
| Installments.CollaboratorMayBePaidFirst | app.py:169-184 | a fresh installment can be marked collaborator-paid while the client has not paid |
| Store.RegisterCollaborator | app.py:49-59 | an empty name is refused; otherwise exactly one collaborator row with that name is added under a fresh id, and nothing else changes |
| Store.RegisterSale | app.py:114-141 | refused exactly when the collaborator id or date is absent, the client name empty or the amount zero; otherwise one sale and one unpaid installment (index 1, the sale's due date and amount, pointing at the new sale) are appended, and nothing else changes |
| Store.RegisterSaleDoesNotCheckCollaborator | app.py:119-130 | a sale for an unknown collaborator id with a negative amount is accepted |
| Store.RecordClientPayment | app.py:148-163 | a missing installment id gives NotFound; otherwise only that row changes, by the client-payment update |
| Store.RecordCollaboratorPayment | app.py:170-184 | a missing installment id gives NotFound; otherwise only that row changes, by the collaborator-payment update |
| Store.EmptyDbWellFormed | db_create.py:4-6 | the freshly created empty store satisfies the store invariant |
| Store.WellFormedOneInstallmentPerSale | app.py:125-141 | in a well-formed store every sale owns exactly one installment, with index 1 and the sale's full amount |
| Store.RegisterCollaboratorPreservesWellFormed | app.py:49-59 | registering a collaborator keeps the store invariant |
| Store.RegisterSalePreservesWellFormed | app.py:125-142 | registering a sale keeps the store invariant |
| Store.RecordClientPaymentPreservesWellFormed | app.py:148-165 | recording a client payment keeps the store invariant |
| Store.RecordCollaboratorPaymentPreservesWellFormed | app.py:170-185 | recording a collaborator payment keeps the store invariant |
| Store.RecordClientPaymentLastWriteWins | app.py:161-163 | two client payments on one installment store the same as the second alone |
| MonthlySummary.SalesOf | app.py:94 | the listed sale ids are exactly the collaborator's sales, in increasing id order |
| MonthlySummary.CollaboratorSummary | app.py:64-91 | an unknown collaborator gives NotFound; otherwise the total is the sum over client-paid installments of that collaborator dated in the month and year, with its tier, the unrounded commission, and the collaborator's sale ids, each exactly once, in increasing order and nothing else |
| MonthlySummary.Counted | app.py:79-84 | an installment counts only if the client has paid and its paid date lies in the queried month of the queried year (and its sale belongs to the collaborator) |
| MonthlySummary.PaidTotal | app.py:76-89 | the sum of amounts over the counted installments: zero when none counts, non-negative when no amount is negative |
| MonthlySummary.PaidTotalUpdate | app.py:89 | replacing one installment changes the total by exactly the difference of that row's contributions |
| MonthlySummary.PaidTotalNewSale | app.py:76-89 | adding a sale row does not change how existing installments join |
| MonthlySummary.RegisterSaleKeepsTotals | app.py:76-89 | registering a sale leaves every monthly total unchanged |
| MonthlySummary.RecordCollaboratorPaymentKeepsTotals | app.py:76-89 | paying the collaborator leaves every monthly total unchanged |
| MonthlySummary.RecordClientPaymentRaisesTotal | app.py:76-89 | a first client payment on one of the collaborator's installments raises the total of its month by the installment amount and leaves every other month unchanged |
| MonthlySummary.AnaScenario | app.py:49-163 | Ana's 3000 sale, paid on 2024-03-03, gives March 2024 a total of 3000, multiplier 1.4 and commission 1200, with payout on 2024-03-20 |

## Left out

- Flask routing, forms, `flash`, redirects, templates and the ordered collaborator list on the index page (app.py:42-46): presentation only.
- SQLAlchemy sessions, queries, commits and cascade deletion (app.py:11-13, models.py:15, models.py:27): persistence. The store is three immutable sequences. Nothing deletes rows in the modelled operations.
- `datetime.strptime`, `int(collab_id)` and `float(amount)` parsing, and their exceptions on malformed text (app.py:116, 123, 126, 157, 179): string parsing. Dates arrive parsed; a missing field is `None`.
- `date.today()` and `datetime.now()` defaults (app.py:72-73, 159, 181): clock reads. The date, month and year are parameters.
- MonthlySummary.CollaboratorSummary: the commission is the exact `total * (multiplier - 1)`. The float rounding `round(..., 2)` (app.py:91) and the `Float` columns (models.py:22, 42) are floating point and are not modelled.
- `created_at` timestamps and the phone/email columns (models.py:11-13, 24): no behaviour to verify.
- The order of `todas_vendas` (app.py:94) is unspecified in the query. The model lists sale ids in increasing order.

## Findings

| source | as written | input that shows it | evidently intended | confidence | as-written member | corrected member |
|---|---|---|---|---|---|---|
| app.py:16-24 | the retry loop decrements the day on every `ValueError`, including the out-of-range-year error that no day can fix | `add_months(date(9999, 12, 31), 1)`, and so `compute_collaborator_receipt_date(date(9999, 12, 31))` in `mark_client_paid`: the target year 10000 makes every `date(...)` call raise `ValueError`, so the loop never returns a date; under CPython's C `datetime` it spins about 2^31 rounds until the day no longer fits a C int and then raises an `OverflowError` that `except ValueError` does not catch | fail with an error when the target year leaves 1..9999 | medium, not executed | DateArith.AddMonthsAsWrittenHangsAfterMaxYear | DateArith.AddMonths |
