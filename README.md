# Licence lifecycle of the Flask licensing service

This project models the licence part of a small Flask service (`app.py`). The
service keeps one SQLite table, `licenses`, with one row per client. `client_id`
is UNIQUE in that table. Five request handlers work on it:

- `/activate` (POST) issues a licence for a new client id or renews an existing one.
- `/deactivate/<client_id>` clears the active flag.
- `/activate/<client_id>` reactivates a licence for a flat 30 days.
- `/admin` lists every row with a computed status: Valid, Expired or Invalid Date.
- `/api/login` checks an email and password pair against the rows. It answers 400, 401, 403 or 200, or 500 when the matched row's date does not parse.

The model has four modules:

- `LicenseTypes` (license_types.dfy) holds the row, the form, the clock and the date columns.
  A date column is `Date(day)` or `Malformed`: it either parses or it does not.
  The clock is a day number plus microseconds since midnight.
  This is the resolution of Python's `datetime.today()`.
- `Status` (status.dfy) holds the two pure decisions: the dashboard status of a row and the login answer.
- `Lifecycle` (lifecycle.dfy) holds the table writes as functions from the old rows to the new rows, with lemmas about them.
- `Store` (store.dfy) holds the class `LicenseStore`. Its `rows` field is the table in id order.
  Its methods are the handlers that write the table, plus the dashboard loop.
  `Valid()` is the UNIQUE constraint on client ids.

The clock, the uuid4 machine id and the random password are parameters.
A password must have eight characters, each a letter or a digit.

The model follows these behaviours of the code:

- `/activate` does not check its inputs. A negative duration is accepted and gives a window that ends before today.
  An empty client id is accepted as an ordinary key.
  `Lifecycle.IssueOrRenew` and `Store.LicenseStore.Activate` have no precondition on either.
- A renewal leaves the stored `duration`, name and email as they were, even when the form sends new values.
  So `valid_until - last_payment` can differ from the stored `duration`.
- Reactivation always sets a 30-day window. It ignores the stored duration and overwrites any window that was left.
- Deactivation and reactivation do not report whether a row changed. An unknown client id is a silent no-op,
  and the model's methods return nothing.
- `/api/login` has no handler around the parsing of the stored `valid_until`.
  A matched row whose date does not parse makes the request fail with 500; the model returns `ServerError`.
- The dashboard compares the current date and time with midnight of `valid_until`.
  So on the last day the row shows as Expired at any time after 00:00:00.
  The login compares dates only, so it still accepts that day.
  `Status.LastDayDisagreement` states this mismatch.

## Model

| member | source | states |
|---|---|---|
| `Status.RowStatus` | app.py:164-168 | Invalid Date exactly when valid_until does not parse; Valid exactly when the row is active and the current instant is before the last day, or at 00:00:00 of it; Expired otherwise |
| `Status.FirstMatch` | app.py:66-67 | finds the first row in id order whose email and password both match exactly; None only when no row matches |
| `Status.CheckLicense` | app.py:70-78 | on the matched row: 500 exactly when valid_until does not parse; 200 with the row's client_id exactly when active and today is not after the last day (last day inclusive); 403 exactly when inactive or past that day |
| `Status.ApiLogin` | app.py:55-80 | 400 exactly when email or password is absent or empty; 401 exactly when no row matches both; otherwise the answer of the licence check on the first matching row; reads the rows and returns a value, so it cannot change them |
| `Status.StatusAgreement` | app.py:161-166 | for a parsed date, the dashboard shows Valid exactly when the login check passes and the clock is before the last day or at its midnight |
| `Status.LastDayDisagreement` | app.py:72-75 | on the last day after midnight, an active row is Expired on the dashboard yet the login check accepts it |
| `Lifecycle.UpdateWhere` | app.py:235 | an UPDATE ... WHERE client_id keeps the number of rows |
| `Lifecycle.UpdateWhereAt` | app.py:248-251 | row i after the UPDATE is the rewritten row if it carries the id, else the same row |
| `Lifecycle.UpdateWhereEffect` | app.py:207-211 | the UPDATE rewrites every row carrying the id in place, leaves the others and their order alone, and changes nothing when no row carries the id |
| `Lifecycle.IssueOrRenew` | app.py:203-222 | afterwards a row carries the form's client id; the row count grows by one only when the id was absent |
| `Lifecycle.IssueAppendsOne` | app.py:213-222 | for an absent id: the old rows followed by one new row with the form's fields, the generated machine id and password, last_payment = today, valid_until = today + duration, active |
| `Lifecycle.RenewChangesOnlyWindow` | app.py:206-211 | for a present id: the row carrying it gets the new transaction_id, last_payment = today, valid_until = today + the form's duration, active; everything else in it and every other row stays |
| `Lifecycle.IssueOrRenewKeepsIdsUnique` | app.py:203-222 | with distinct client ids before: distinct ids after, and exactly one row carries the form's id |
| `Lifecycle.IssueTwiceKeepsFirstCredentials` | app.py:195-222 | issuing a new id and then the same id again leaves one row, which holds the first call's machine id, password and duration and the second call's window |
| `Lifecycle.Deactivate` | app.py:231-239 | deactivation keeps the number of rows |
| `Lifecycle.DeactivateEffect` | app.py:235 | deactivation clears is_active on the row carrying the id and nothing else; an unknown id changes nothing; distinct ids stay distinct |
| `Lifecycle.Reactivate` | app.py:241-256 | reactivation keeps the number of rows |
| `Lifecycle.ReactivateEffect` | app.py:243-251 | reactivation sets is_active, last_payment = today and valid_until = today + 30 on the row carrying the id, whatever window it had; nothing else changes; an unknown id changes nothing; distinct ids stay distinct |
| `Lifecycle.DeactivatedNeverValid` | app.py:166 | after deactivation the row shows as Expired (Invalid Date if its date does not parse), however much of its window is left |
| `Lifecycle.DeactivatedLoginForbidden` | app.py:70-76 | after deactivation the row's own credentials never get 401; when that row is the first match they get 403 (500 if its date does not parse) |
| `Lifecycle.ReactivateRevives` | app.py:243-251 | after reactivation the row's window ends today + 30 and it is Valid at any time today; its credentials, when that row is the first match, log in with its client_id |
| `Lifecycle.IssueExpireReactivate` | app.py:196-251 | a licence issued for d > 0 days is Valid on its first day and Expired after its window; reactivating it later makes it Valid with a window 30 days from that later day |
| `Store.LicenseStore.constructor` | app.py:28-42 | the table starts empty and satisfies the UNIQUE constraint |
| `Store.LicenseStore.Activate` | app.py:182-229 | keeps client ids unique with exactly one row for the form's id; reports a new row exactly when the id was absent; shows the generated password only then, and that stored password is eight letters or digits; new rows are the issue-or-renew of the old |
| `Store.LicenseStore.Deactivate` | app.py:231-239 | keeps client ids unique; new rows are the deactivation of the old; an unknown id changes nothing |
| `Store.LicenseStore.Reactivate` | app.py:241-256 | keeps client ids unique; new rows are the 30-day reactivation of the old; an unknown id changes nothing |
| `Store.LicenseStore.Dashboard` | app.py:160-178 | one entry per row, in row order, carrying the row's client id, name, email, machine id, dates and the status computed against the given clock |

## Left out

- Flask routing, templates, flash messages, redirects and session checks are left out. They are transport and UI.
  The missing session check on `/deactivate` and `/activate/<client_id>` is a web-layer concern.
- The `users` table, signup and login are left out. They are not part of the licence lifecycle.
- SQLite connections and table creation are left out. The table is a sequence of rows in id order.
  An UPDATE is modelled as rewriting every row that carries the id.
- `uuid.uuid4()`, `random.choices` and the clock are left out. Their values are parameters.
  The only constraint is the password's length and alphabet.
- Date strings are not modelled: no `strftime`/`strptime` round trip and no calendar.
  A date is a day number, or `Malformed` when the text would not parse.
  Python's date range limits (years 1 to 9999) are not modelled, so a huge duration does not raise here.
- Input parsing is left out. A non-numeric duration makes `int()` raise; this is not modelled.
  A form field or JSON field of a type other than string is not modelled either.
  An absent `/activate` form field would be stored as NULL; the model takes every form field as a string.
- `is_active` is a boolean. The handlers only ever store 0 or 1.
  For those values the dashboard's `== 1` test and the login's `not is_active` test agree.
- Row order is not modelled as SQL does it. The login query has no ORDER BY, so SQL does not say which matching row `fetchone()` returns.
  The model takes the first matching row in id order, which is the order SQLite scans this unindexed table in.
  The dashboard listing uses the same order.
- Concurrency between requests is not modelled. Each handler is one atomic step.
- Status.ApiLogin: a malformed valid_until on the matched row makes `strptime` raise with no handler.
  The model gives this as the ServerError outcome (HTTP 500), not as an uncaught exception.
