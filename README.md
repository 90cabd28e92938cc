# Subscription service: a Dafny model

This project models the domain core of a small subscription-tracking service.
A subscription records a service name, a monthly price, the owning user, a
start month and an optional end month. The model covers three parts:

- **The service rules.** These are in `internal/domain/service/subscription.go`:
  - create validation, with its four checks in a fixed order;
  - the partial-update merge (`applyUpdates`) and the read-merge-check-write
    `Update` built on it;
  - the mapping of the store's `sql.ErrNoRows` to `ErrSubscriptionNotFound` in
    `Get`, `Update` and `Delete`;
  - the end-date clamp to "now" in `TotalCost`.
- **The repository over the `subscriptions` table.** This is
  `internal/infrastructure/persistent/postgres.go`. The table is modelled as a
  class holding a map from id to row, the id serial and the connection state.
  Each SQL statement becomes one method with the effect the SQL text gives it.
  The total-cost aggregate is a pure function with a closed form: each
  matching row is expanded into its monthly payment dates, and its price is
  summed over the dates that fall inside the period.
- **The `MM-YYYY` codec.** This is `pkg/utils/time.go`: `time.Parse` under the
  layout `"01-2006"`, normalised to the 1st of the month, and its inverse
  `FormatMonthYear`.

## Files and modules

| file | module | contents |
|---|---|---|
| `wrappers.dfy` | `Wrappers` | `Option` (a Go pointer that may be nil) and `Result` (a Go `(value, error)` pair) |
| `times.dfy` | `Times` | `Month` (a month index, `year * 12 + month - 1`), `Instant` (a month plus the nanoseconds since 00:00 on the 1st), and Go's `Before` |
| `month_year.dfy` | `MonthYear` | `ParseMonthYear`, `FormatMonthYear` and their round trips |
| `entity.dfy` | `Entity` | `Subscription`, `ListFilter`, `CostFilter`, `Uuid`, and the filter rule shared by both queries |
| `cost_query.dfy` | `CostQuery` | the `GetTotalCost` aggregate: `Series` (generate_series), `Charges` (the SUM), the closed form |
| `store.dfy` | `Store` | class `Table`, the repository; `Listing`, the specification of `GetAll` |
| `service.dfy` | `Service` | the inputs, the error kinds, the validation and merge functions, and class `SubscriptionService` |

## How the model reads the source

- **Dates.** Every date the service stores comes from `ParseMonthYear`, which
  always yields 00:00 UTC on the 1st of a month (`ParseMonthYear`'s ensures).
  So a start or end date is a `Month` index, and `end.Before(start)` is
  `Before(FirstOf(end), FirstOf(start))`. The only instants that are not on a
  month boundary are "now" and the `created_at` and `updated_at` stamps.
- **"Now" is a parameter.** `time.Now()` in `TotalCost` and the database's
  `now()` in `Create` and `Update` are a `now: Instant` argument. The table
  keeps `clock`, the latest stamp it has written. `Create` and `Update` ask
  that `now` is not earlier than `clock`, which means the database clock does
  not run backwards. This assumption is what makes the serial id order agree
  with `created_at` order.
- **Database failures** are modelled by the `conn` field of the table:
  - `Healthy`: statements run.
  - `Offline`: every statement fails with `Failed(op)`, the driver error
    wrapped by the repository's helper for that operation.
  - `RowCountUnsupported`: statements run, but `RowsAffected` cannot be read.

  `SetConn` is how the environment changes this state. Within the service's
  `Update` the connection can change between statements: its `atRead`,
  `atWrite` and `atCommit` arguments are the states the environment picks
  before the read, before the write and before the deferred commit.
- **Errors are modelled by kind.** The store returns either the bare
  `sql.ErrNoRows` (`NoRows`) or `Failed(op)`. The service returns one of:
  - the five sentinel errors;
  - `Wrapped(context, cause)` for `fmt.Errorf("<context>: %w", err)`;
  - `Passed(cause)` for a store error that `Update` returns unwrapped.
- **`WithTx` runs sequentially.** `getExecutor`
  (`internal/infrastructure/persistent/postgres.go:28-33`) is never called.
  Every statement runs on the pool, so the transaction that `WithTx` opens
  holds no statement, and neither commit nor rollback changes a row. The
  closure cannot be passed as a method value, so `WithTx` is split in two:
  - `Table.BeginTx` is the opening half, where `BeginTx` can fail;
  - `Table.EndTx` is the deferred closing half. It rolls back when the body
    failed and commits otherwise, and always returns the body's error.

  `SubscriptionService.Update` runs the body between the two calls.
- **`GetAll`'s row loop.** The `ORDER BY created_at DESC` cursor is modelled as
  a walk over the ids from the newest down. `Table.GetAll`'s loop appends the
  matching rows, as the `rows.Next()` loop does.
- **The `::DATE` casts in the aggregate.** A payment date is the 1st of a
  month. So `date <= $2::DATE` holds exactly for months up to the month of the
  period end (`LastBilledMonth`). `date >= $1::DATE` holds from the month of
  the period start when that start falls on the 1st, and otherwise from the
  month after (`FirstBilledMonth`).

### Behaviour of the code worth knowing

- **An end date cannot be cleared.** The HTTP handler sets
  `SetEndDateToNull` when an update sends an empty end date
  (`internal/server/handler.go:224-229`, `256`). `applyUpdates` never reads
  the flag (`internal/domain/service/subscription.go:143-145`). So an end
  date, once set, stays set (`ClearFlagIgnored`).
- **The update's transaction holds no statement.** `getExecutor` is never
  called, so `GetById` and `Update` run on the pool rather than on the
  transaction that `WithTx` opens. In this sequential model every failure of
  the update happens before its single write, so no partial update is ever
  visible.
- **`Update` returns store errors unwrapped.** `Get`, `Delete`, `GetAll` and
  `TotalCost` wrap a store error with their context. `Update` returns as it
  is the transaction-begin failure, a failed read and a failed write
  (`Passed(Failed(BeginOp))`, `Passed(Failed(GetByIdOp))`,
  `Passed(Failed(UpdateOp))`; `internal/domain/service/subscription.go:97`,
  `104-105`, `110`).
- **A failed commit never reaches the caller.** The deferred `tx.Commit()` in
  `WithTx` assigns to the local `err` after `return err` has already fixed
  the unnamed result (`internal/infrastructure/persistent/postgres.go:42-56`).
- **`Delete` can succeed on a missing id.** When the driver cannot report the
  affected-row count, `Delete` returns success even when no row was deleted,
  so the service does not report `ErrSubscriptionNotFound`.
- **The service does not trim the service name.** `validateCreateInput` and
  `applyUpdates` compare the name with `""`. Trimming happens in the HTTP
  handler (`internal/server/handler.go:89`, `247`), which is not part of this
  model, so a name of spaces passes the service's checks.

## Model

| member | source | states |
|---|---|---|
| `MonthYear.ParseMonthYear` | pkg/utils/time.go:8-14 | a successful parse is 00:00 UTC on the 1st of a month whose year is between 0 and 9999 |
| `MonthYear.ParseAcceptsExactly` | pkg/utils/time.go:8-13 | the parse succeeds exactly on two digits naming a month 01 to 12, a dash, four digits and nothing else, and then yields the 1st of the month and year written |
| `MonthYear.FormatMonthYear` | pkg/utils/time.go:16 | the text starts with the month as two digits, zero-padded, followed by a dash |
| `MonthYear.FourDigitYear` | pkg/utils/time.go:16 | a year from 0 to 9999 is written as exactly its four decimal digits, zero-padded |
| `MonthYear.FormatShape` | pkg/utils/time.go:16 | for the years 0 to 9999 the text is exactly `MM-YYYY`, seven characters |
| `MonthYear.FormatAfterParse` | pkg/utils/time.go:8-16 | round trip: formatting the result of any successful parse gives back the parsed string |
| `MonthYear.ParseAfterFormat` | pkg/utils/time.go:8-16 | round trip: parsing the formatted text of any instant with a year from 0 to 9999 gives the 1st of that instant's month |
| `MonthYear.SameMonthSameText` | pkg/utils/time.go:16 | two instants in the same year and month format to the same text, because the day and time are dropped |
| `Entity.Matches` | internal/infrastructure/persistent/postgres.go:140-141 | the `WHERE` filter shared by `GetAll` and `GetTotalCost`: each filter is either absent or equal to the row's column (its meaning is stated by `MatchesExactly`) |
| `Entity.MatchesExactly` | internal/infrastructure/persistent/postgres.go:140-141 | a row matches exactly when each filter is absent or equal to the row's value; in particular one filter absent and the other equal matches, and both absent matches every row |
| `CostQuery.DateOf` | internal/infrastructure/persistent/postgres.go:192-193 | `t::DATE` is midnight of the day `t` falls on: same month, a whole number of days after the 1st, at most `t`, and less than a day before it |
| `CostQuery.FirstBilledMonth` | internal/infrastructure/persistent/postgres.go:192 | the first month whose 1st passes `>= $1::DATE`: its 1st is not before the period start's date, and the 1st of the month before it is |
| `CostQuery.LastBilledMonth` | internal/infrastructure/persistent/postgres.go:193 | the last month whose 1st passes `<= $2::DATE`: its 1st is not after the period end's date, and the 1st of the month after it is |
| `CostQuery.Series` | internal/infrastructure/persistent/postgres.go:186-190 | `generate_series` by one month: last − first + 1 dates (none when last is before first), the i-th being first + i |
| `CostQuery.Charges` | internal/infrastructure/persistent/postgres.go:183-193 | the SUM of one subscription's payment dates inside the period is never negative for a non-negative price |
| `CostQuery.TotalCost` | internal/infrastructure/persistent/postgres.go:182-195 | the total is never negative when no price is negative (its value is given by `TotalCostClosedForm`) |
| `CostQuery.ChargesClosedForm` | internal/infrastructure/persistent/postgres.go:186-193 | charging the price for each month `first..last` of the payment series that lies in `[lo, hi]` totals the price times the number of months the two ranges share |
| `CostQuery.RowCostClosedForm` | internal/infrastructure/persistent/postgres.go:182-193 | one row contributes price × max(0, min(COALESCE(end, qEnd), qEnd) − max(start, qStart) + 1), in months |
| `CostQuery.RowCostZero` | internal/infrastructure/persistent/postgres.go:186-193 | a row whose end is before its start, or whose payment dates all lie outside the period, contributes 0 |
| `CostQuery.TotalCostClosedForm` | internal/infrastructure/persistent/postgres.go:182-195 | the aggregate equals the sum, over the rows that match the filters, of each row's closed-form contribution |
| `CostQuery.NoMatchesNoCost` | internal/infrastructure/persistent/postgres.go:183 | with no row matching the filters the total is 0 (the `COALESCE(SUM, 0)`) |
| `CostQuery.TotalCostAppend` | internal/infrastructure/persistent/postgres.go:182-195 | the total over two groups of rows is the sum of their totals: the aggregate can be summed group by group |
| `CostQuery.WorkedExamples` | internal/infrastructure/persistent/postgres.go:182-195 | Jan–Jun 2024 at 100 costs 600 over Jan–Jun, 200 over Mar–Apr and 0 over 2023; open-ended from Jan 2024 at 50 costs 150 up to Mar 2024 |
| `Store.Listing` | internal/infrastructure/persistent/postgres.go:133-176 | the specification of `GetAll`'s result: exactly the rows matching the filters, each once, ids descending and `created_at` non-increasing |
| `Store.ListingUnique` | internal/infrastructure/persistent/postgres.go:133-176 | the listing specification determines the result: two listings of the same rows under the same filters are equal |
| `Store.Table.constructor` | internal/infrastructure/persistent/postgres.go:16-18 | the model starts the repository from an empty table, the serial at 1 and a healthy connection (the Go repository attaches to an existing database; no other contract depends on the table being empty) |
| `Store.Table.Create` | internal/infrastructure/persistent/postgres.go:59-82 | returns its argument with only the id, created_at and updated_at replaced; the id is positive and was never used before; the table gains exactly that row; a failing connection changes nothing |
| `Store.Table.GetById` | internal/infrastructure/persistent/postgres.go:84-110 | returns the stored row; a missing id gives the bare `sql.ErrNoRows`; any other failure is wrapped |
| `Store.Table.Update` | internal/infrastructure/persistent/postgres.go:208-253 | overwrites name, price, user, start and end of the row with that id, sets updated_at to now, and keeps id and created_at; a missing id gives the bare `sql.ErrNoRows` and writes nothing |
| `Store.Table.Delete` | internal/infrastructure/persistent/postgres.go:112-131 | removes the row; reports `sql.ErrNoRows` when no row was affected, but success when the affected count cannot be read |
| `Store.Table.GetAll` | internal/infrastructure/persistent/postgres.go:133-176 | returns exactly the rows matching the filters, each once, ordered by created_at descending |
| `Store.Table.RowsCoverTable` | internal/infrastructure/persistent/postgres.go:182-185 | the rows the aggregate sums, `Rows()`, are every row of the table, each once, in id order |
| `Store.Table.GetTotalCost` | internal/infrastructure/persistent/postgres.go:179-206 | returns the aggregate over the table's rows, or a wrapped error when the query fails |
| `Store.Table.BeginTx` | internal/infrastructure/persistent/postgres.go:35-39 | starting the transaction fails only when the connection does, and then the body is never run |
| `Store.Table.EndTx` | internal/infrastructure/persistent/postgres.go:42-57 | returns exactly the body's error; rolls back when the body failed and commits otherwise; a failed commit is not reported |
| `Service.ValidateCreateInput` | internal/domain/service/subscription.go:60-74 | passes exactly when the row is well-formed; otherwise returns the first failure in the order: empty name, price ≤ 0, nil user id, end strictly before start |
| `Service.Overlay` | internal/domain/service/subscription.go:117-145 | the merge keeps the id and both timestamps, and never clears a stored end date |
| `Service.UpdateCheck` | internal/domain/service/subscription.go:117-149 | passing means every present name, price and user id passes its create check on the merged row and the merged end is not before the merged start; a failure is one of the four validation errors |
| `Service.ApplyUpdates` | internal/domain/service/subscription.go:117-152 | the error is the first failing check of the merge; on success the row is the merge, and on failure the row holds the fields merged before the failing check |
| `Service.OverlayFields` | internal/domain/service/subscription.go:117-145 | in the merge an absent field keeps the stored value, a present one replaces it, and id and timestamps are untouched |
| `Service.ClearFlagIgnored` | internal/domain/service/subscription.go:143-145 | the clear-end flag changes neither the merge nor its checks; with no new end date the stored end date is kept, so an end date is never cleared |
| `Service.EndEqualToStartAccepted` | internal/domain/service/subscription.go:70 | an end date equal to the start date passes create and update alike, because `Before` is strict |
| `Service.UpdateChecksAsCreate` | internal/domain/service/subscription.go:117-149 | on a well-formed stored row, the update's checks give the same verdict as the create validation of the merged row |
| `Service.UpdateKeepsWellFormed` | internal/domain/service/subscription.go:117-149 | an update that passes its checks keeps a well-formed row well-formed |
| `Service.EffectiveEnd` | internal/domain/service/subscription.go:183-186 | the clamped end is either now or the requested end, and is after neither |
| `Service.EffectiveEndMonths` | internal/domain/service/subscription.go:182-197 | in months the clamped end is min(end, current month); the period is rejected exactly when that month is before the start month; the start passes through unchanged |
| `Service.SubscriptionService.constructor` | internal/domain/service/subscription.go:30-34 | the service is built over the given repository |
| `Service.SubscriptionService.Create` | internal/domain/service/subscription.go:36-58 | a rejected input returns its validation error and leaves the table unchanged; a store failure is wrapped; otherwise the returned row is well-formed, stored under a fresh id and stamped now; the serial advances by one and the clock becomes now on success, and neither moves on failure |
| `Service.SubscriptionService.Get` | internal/domain/service/subscription.go:76-86 | returns the stored row; a missing id is `ErrSubscriptionNotFound`; any other store error is wrapped |
| `Service.SubscriptionService.Update` | internal/domain/service/subscription.go:88-115 | a failed begin, read or write is returned unwrapped; an unknown id is `ErrSubscriptionNotFound`; a merged row that fails a check returns that check's error; every failure leaves rows and clock unchanged; a failed commit does not change the result; on success it returns and stores the merged row stamped now, well-formed when the stored row was; the serial never moves |
| `Service.SubscriptionService.Delete` | internal/domain/service/subscription.go:154-165 | removes the row; a missing id is `ErrSubscriptionNotFound` (unless the count cannot be read); any other store error is wrapped |
| `Service.SubscriptionService.GetAll` | internal/domain/service/subscription.go:167-180 | returns exactly the matching rows, newest first; a store error is wrapped |
| `Service.SubscriptionService.TotalCost` | internal/domain/service/subscription.go:182-206 | an effective end before the start is `ErrInvalidDateRange`, returned even when the store would fail; otherwise it returns the aggregate for the start, the clamped end and the filters as given |

## Left out

- The HTTP layer (`internal/server/`), process startup and graceful shutdown
  (`cmd/main.go`, `internal/app/`), configuration (`internal/config/`) and the
  connection pool with its migrations: these are transport and process
  plumbing, not domain logic.
- Logging calls, context cancellation and the text of error messages. Errors
  are modelled by kind.
- Concurrency and transaction isolation. The model is sequential. The
  transaction holds no statement anyway (see above).
- The panic path of `WithTx` (recover, roll back, re-panic): Dafny has no
  panics.
- `TotalCost` reads `time.Now()` twice; the model reads it once.
- Month lengths and leap years. An `Instant`'s nanoseconds since the 1st
  are not bounded by the length of its month. Every instant the model builds
  (a parsed date, or a `now` the environment passes in) is taken to be a real
  calendar instant.
- Time zones. Every instant is UTC, and `::DATE` casts are taken in UTC.
- The 32-bit overflow of `SUM(...)::int`: the sum is an unbounded integer.
- `GetAll`'s scan and row-iteration failures are not distinguished from a
  failed query: all three are `Failed(GetAllOp)`.
- `Store.Table.GetAll`: `ORDER BY created_at DESC` leaves the order of rows
  with equal `created_at` open; the model orders them by id, newest first.
- `Store.Table.Create` and `Store.Table.Update` require that `now` is not
  earlier than the table's clock. That is, the database clock never runs
  backwards.
- `Service.SubscriptionService.Update`: does not model another client
  deleting the row between the read and the write. That write would then
  return the bare `sql.ErrNoRows`, passed through unwrapped. The model is
  sequential, so the write always finds the row it read.
- `MonthYear.ParseAfterFormat`: the round trip is stated for the years 0 to
  9999. Outside that range the year is not four digits and does not parse.
