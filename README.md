# Bank transactions: posting, report and export

A Dafny model of the transaction logic of a small Django banking application,
found in the views of `transactions/views.py`:

- **Deposit posting.** A deposit adds the amount to the account's balance.
  On the account's first deposit it also sets the initial deposit date to the
  current time. It sets the interest start date to that time moved forward by
  `int(12 / interest_calculation_per_year)` months.
- **Withdrawal posting.** A withdrawal subtracts the amount from the balance.
  There is no funds check, so the balance may go negative.
- **Transaction report.** The report lists the requesting account's
  transactions. When a date range is given, it keeps only those dated inside
  the inclusive range. Duplicate rows are removed.
- **Export rows.** The download view writes a fixed header row. Below it, it
  writes one row of field values per distinct transaction of the account. It
  ignores any report date range. It raises on an account with no transactions,
  because it reads the first transaction before its loop.

Modules, one per concern:

- `Wrappers` (wrappers.dfy): `Option`, `Result` and `Outcome`.
- `Calendar` (calendar.dfy): dates, timestamps and `AddMonths`.
  `AddMonths` is the month arithmetic of `datetime + relativedelta(months=k)`.
  It moves by whole months and clamps the day to the target month's length.
  It keeps the time of day. It fails when the year leaves 1..9999.
- `Records` (records.dfy): the transaction record and its kinds.
- `Posting` (posting.dfy): the account as a class, with `Deposit` and
  `Withdraw` methods that update its fields in place. Each method is tied to
  a pure function on an `AccountState` value. The lemmas about replaying a
  sequence of requests are stated over those functions.
- `Reports` (reports.dfy): the report query as pure functions (`Select`,
  `Distinct`, `TransactionReport`).
- `Export` (export.dfy): the rows the download view writes. `ExportedRows` is
  the specification function. `BuildExportRows` is the imperative row building,
  with the view's loops.

Amounts are Django decimals. They are modelled as integers counting the
smallest unit (cents), so that 100.00 is `10000`.

Behaviour of the code that the model keeps:

- The views give the report no ordering. The model keeps the stored order of
  the transactions.
- The export raises `IndexError` on an account with no transactions
  (transactions/views.py:195). The model has that error path.
- The views do not check that amounts are positive. The model accepts any
  integer amount.

## Model

| member | source | states |
|---|---|---|
| `Calendar.DaysInMonth` | transactions/views.py:96-100 | The month length used by the day clamp is between 28 and 31, and is 28 exactly for February of a non-leap year. |
| `Calendar.AddMonths` | transactions/views.py:96-100 | The result exists exactly when the target month lies between January of year 1 and December of year 9999. The month index moves by exactly `k` and the time of day is kept. The day is either kept or clamped to the last day of the target month. A day of 28 or less is always kept. A valid day gives a valid date. |
| `Calendar.AddZeroMonths` | transactions/views.py:96-100 | Moving a valid date by zero months returns it unchanged. |
| `Calendar.AddMonthsNotEarlier` | transactions/views.py:96-100 | Moving a valid date forward by a non-negative number of months never gives an earlier date. |
| `Posting.NextInterestMonths` | transactions/views.py:92-94 | A rate of 0 is a division by zero. Otherwise the result is 12 divided by the rate, truncated toward zero: for a positive rate `q*rate <= 12 < (q+1)*rate`, and symmetrically for a negative rate. The result is always between -12 and 12. |
| `Posting.ApplyDeposit` | transactions/views.py:90-109 | The saved effect of a deposit raises exactly on a first deposit whose rate is 0 (a division by zero) or whose interest start date leaves years 1..9999. On success the balance rises by the amount. The schedule dates it sets are stated by `ReplayFirstDeposit` and `ReplayKeepsSchedule`. |
| `Posting.ApplyWithdrawal` | transactions/views.py:138-139 | The saved effect of a withdrawal. Its promises (balance falls by the amount, dates untouched) are carried by `Account.Withdraw` and `ReplayBalance`. |
| `Posting.Post` | transactions/views.py:87-153 | One deposit or withdrawal request; a deposit that raises saves nothing. Its promises are carried by the `Replay*` lemmas. |
| `Posting.Replay` | transactions/views.py:87-153 | Requests handled one after another. Its promises are carried by `ReplayBalance`, `ReplayKeepsSchedule`, `ReplayFirstDeposit` and `ReplayZeroRate`. |
| `Posting.DepositSucceeds` | transactions/views.py:90-100 | A deposit succeeds when the rate is non-zero or the account already has a deposit, and the deposit's time lies in years 2..9998 with a valid month. |
| `Posting.ReplayBalance` | transactions/views.py:102 | With a non-zero rate, or an account that already has a deposit, and every deposit dated in years 2..9998 with a valid month, the final balance is the opening balance plus deposits minus withdrawals. |
| `Posting.ReplayKeepsSchedule` | transactions/views.py:90-109 | Once the initial deposit date is set, no later deposit or withdrawal changes it or the interest start date. |
| `Posting.ReplayFirstDeposit` | transactions/views.py:90-100 | On an account without deposits, the initial deposit date ends up as the time of the first deposit request. The interest start date is that time plus the computed number of months. With no deposit, the interest start date is unchanged. |
| `Posting.ReplayZeroRate` | transactions/views.py:92-94 | With a zero rate, every deposit to an account without deposits raises. Only withdrawals reach the balance, and the schedule stays unset. |
| `Posting.InterestStartsAfterFirstDeposit` | transactions/views.py:92-100 | With a positive rate, the interest start date is never before the first deposit's date. |
| `Posting.Account.Deposit` | transactions/views.py:87-109 | A first deposit fails, and saves nothing, exactly when the rate is 0 or the interest start date overflows. On success the balance rises by the amount. A first deposit sets the initial deposit date to `now` and the interest start date to `now` plus the computed months. A later deposit leaves both dates as they were. The method agrees with `ApplyDeposit`. |
| `Posting.Account.Withdraw` | transactions/views.py:135-139 | The balance falls by the amount, with no funds check. Both schedule dates are unchanged. The method agrees with `ApplyWithdrawal`. |
| `Reports.Select` | transactions/views.py:36-43 | A transaction is in the result exactly when it is in the table, belongs to the account and lies in the range. The result is no longer than the table. |
| `Reports.Distinct` | transactions/views.py:46 | The result has no duplicates. It holds exactly the input's elements and is no longer than the input. |
| `Reports.TransactionReport` | transactions/views.py:35-46 | Every returned transaction belongs to the requesting account. With a range, every returned date lies between start and end inclusive. A transaction is returned exactly when it is an account transaction matching the range. The result has no duplicates. |
| `Reports.DistinctOfUnique` | transactions/views.py:46 | Removing duplicates from a sequence that has none changes nothing. |
| `Reports.ReportOfKeyedTable` | transactions/views.py:35-46 | When primary keys are unique, the report is exactly the filtered rows in stored order. |
| `Reports.ReportWithinHistory` | transactions/views.py:40-43 | A dated report never holds a transaction that the undated report lacks. |
| `Export.HeaderRow` | transactions/views.py:200 | The header row has the five column labels, in order: id, account, amount, balance_after_transaction, transaction_type. |
| `Export.FieldsOf` | transactions/views.py:197 | A transaction's dictionary has one entry per column, and its keys are the header labels in column order. |
| `Export.RowOf` | transactions/views.py:201-203 | A transaction's row has five cells: its id, its account, its amount, its balance after the transaction (null when unset) and its kind. |
| `Export.BuildExportRows` | transactions/views.py:189-206 | The loops that build the data and data_list lists and write the rows produce exactly `ExportedRows`. This includes the error when the account has no transactions. |
| `Export.ExportedRows` | transactions/views.py:189-205 | The rows the download view writes. Its promises are carried by `BuildExportRows`, `ExportFailsIffNoTransactions`, `ExportShape` and `ExportIgnoresRange`. |
| `Export.ExportFailsIffNoTransactions` | transactions/views.py:193-195 | The export fails exactly when no transaction belongs to the account. |
| `Export.ExportShape` | transactions/views.py:196-205 | A successful export is exactly one header row, then one row per distinct account transaction in report order. No later row equals the header. |
| `Export.ExportIgnoresRange` | transactions/views.py:189-193 | Every transaction of any dated report has its row in the export. The export does not apply the report's date range. |

## Left out

- Mail notifications (`send_mail`) and UI flash messages (`messages.success`) are not modelled. They are outbound I/O.
- Writing and reading the shared `output1.csv` file is not modelled. Neither is CSV quoting, the MIME type guess or the HTTP response. The rows are modelled as a sequence of cells.
- `DownloadView.get` overrides the list view's `get` and never calls `get_queryset`. The response path therefore serves whatever file is on disk. Only the row building is modelled.
- The debug `print` at transactions/views.py:195 is not modelled. Only its indexing of the first transaction, which raises on an empty result, is kept.
- Creation of the `Transaction` row by the generic create view is not modelled. Form validation of the amount and date-range form parsing are not modelled either. The forms and models modules are not part of this model.
- Each transaction's field order and the constants of the transaction kinds come from modules that are not part of this model. The export assumes the field order of its header.
- The enquiry view is not modelled. It has no logic of its own.
- Authentication, template contexts, `get_initial` and URL routing are framework glue and are not modelled.
- Concurrent read-modify-write races on the balance and on the shared export file are not modelled. The model is sequential.
- `timezone.now()` is a parameter `now`. The conversion of a timestamp to a local date before the range test is not modelled: a timestamp's date is used as stored.
- `Posting.Account.Deposit`: when the interest start date overflows, the source has already assigned the initial deposit date on the in-memory object before it raises. The model describes only the saved row, which stays unchanged.
- The report's database ordering is not modelled. Results keep the stored order of the table.
