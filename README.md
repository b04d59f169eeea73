# Shift attendance ledger and time aggregation, in Dafny

This project models the attendance core of a Telegram shift bot that exists in
two variants, and proves properties of it.

- **shiftbot_clean** has two ledgers:
  - `db.py` keeps a per-day shift ledger with time aggregators;
  - `main.py` keeps its own open-shift ledger, in which a user holds any
    number of shift rows, each stamped with a start and an optional end.
- **shiftbot_admin_siw1_rd3** has:
  - `db.py`, a second per-day shift ledger with its own aggregators;
  - `main.py`, the arrival/leaving flow behind a geofence, the daily roster
    and the `/hours_sum` report;
  - `utils.py`, `mm_to_hhmm`.

The per-day ledger has one row per (user, work date). Its check-in and
check-out form a small state machine: Idle → CheckedIn → CheckedOut. The
aggregators turn closed shifts into whole minutes. On top of that they
compute:

- monthly totals;
- per-day lists;
- date-range lists;
- per-user totals over part of a month.

The two variants differ in three places, and the model keeps each difference
as its own function:

- **Month selection:** a half-open date range, versus a `"YYYY-MM-"` prefix
  together with a numeric day-of-month test.
- **Zero-minute days:** kept, versus dropped.
- **Order of per-user totals:** by user id, versus department, then name,
  then date.

The `Variants` module proves where the two variants agree and where they
differ.

## Modules

| module | file | contents |
|---|---|---|
| `Wrappers` | wrappers.dfy | `Option` |
| `Seqs` | seqs.dfy | see below |
| `Format` | format.dfy | integer to text and back, zero padding, `str.split`/`strip`, word count |
| `Ledger` | ledger.dfy | the `users` and `shifts` tables, the check-in/check-out state machine, the roster join and its sort orders |
| `Totals` | totals.dfy | `_minutes_between`, day entries, per-user totals, the two month filters |
| `Calendar` | calendar.dfy | proleptic Gregorian day numbering, as used by `datetime` |
| `CleanDb` | clean_db.dfy | `shiftbot_clean/db.py` as the class `Database` |
| `AdminDb` | admin_db.dfy | `shiftbot_admin_siw1_rd3/db.py` as the class `Database` |
| `Variants` | variants.dfy | how the two `db.py` variants relate |
| `AdminUtils` | admin_utils.dfy | `mm_to_hhmm` |
| `AdminMain` | admin_main.dfy | `shiftbot_admin_siw1_rd3/main.py`: the pending-action flow, the geofence gate, the roster and `/hours_sum` |
| `CleanMain` | clean_main.dfy | `shiftbot_clean/main.py`: the open-shift ledger (class `Store`), the handlers and the helpers |

`Seqs` holds the generic sequence machinery the SQL translates into:

- `WHERE` is `Filter`;
- `ORDER BY` is a stable insertion sort, `SortBy`;
- `sum` is `SumOf`;
- `dict.setdefault(k, []).append` is `GroupBy`.

These conventions hold across the model:

- **Tables** are sequences in rowid order. A user's `id` is its position
  plus one: the model numbers users densely in rowid order. SQLite's
  AUTOINCREMENT ids only increase and may leave gaps (a failed insert, or an
  `INSERT OR IGNORE` on a known `tg_id`, can use up a rowid), so the numeric
  ids the model reports, such as the user ids in `month_minutes_by_user`,
  can differ from the database's. Results that depend only on row order are
  unaffected.
- **Uniqueness:** `UNIQUE(user_id, work_date)` is the invariant
  `Ledger.UniqueKeys`, and every writer is proved to keep it.
- **Timestamps** are integer local-clock seconds.
  - In `shiftbot_clean/main.py` they count from 0001-01-01 00:00, so that
    `month_bounds` and `finish_report` can be stated about real calendar
    days.
  - A missing stored timestamp is `None`. In `shiftbot_admin_siw1_rd3/db.py`
    an unparseable one counts like a missing one. In `shiftbot_clean/db.py` it
    would raise instead (see "## Left out").
- **Dates** are (year, month, day) triples. They are compared in the text
  order of `YYYY-MM-DD`.
- **The clock, today's date and the geofence distance** are method
  parameters.

## Model

| member | source | states |
|---|---|---|
| `Ledger.FindTg` | shiftbot_clean/db.py:56-60 | the user found has the given Telegram id; `None` only if no row has it |
| `Ledger.InsertUser` | shiftbot_admin_siw1_rd3/db.py:50-56 | insert-or-ignore: afterwards the id is registered, existing rows are untouched, and a row is appended (with no department) only when the id was absent |
| `Ledger.RenameUser` | shiftbot_clean/db.py:71-74 | `UPDATE users SET full_name=? WHERE tg_id=?`: the user with that Telegram id, if any, takes the new name; no row is added or removed |
| `Ledger.RegisterUserSpec` | shiftbot_clean/db.py:63-78 | `create_user` keeps ids distinct and appends only for a new id; an existing user keeps its row position and department and gets the new full name; no other row changes |
| `Ledger.InsertUserKeepsRegistered` | shiftbot_admin_siw1_rd3/db.py:50-56 | ids stay distinct, and an already registered user's row (name included) is not overwritten |
| `Ledger.SetDepartment` | shiftbot_clean/db.py:81-84 | `UPDATE users SET department=? WHERE id=?`: the user whose id is given takes the department; an unknown id changes nothing |
| `Ledger.SetDepartmentSpec` | shiftbot_clean/db.py:81-84 | only the user with that id changes: its department becomes the given one; ids and names are kept |
| `Ledger.FindShift` | shiftbot_clean/db.py:97-101 | the row found has the given (user, date) key; `None` only if no row has it |
| `Ledger.EnsureShift` | shiftbot_clean/db.py:88-101 | afterwards a row for the key exists; old rows are a prefix; an empty row is appended exactly when the key was absent |
| `Ledger.FindShiftUnique` | shiftbot_clean/db.py:35 | under `UNIQUE(user_id, work_date)` the lookup finds the one row carrying the key |
| `Ledger.EnsureShiftIdempotent` | shiftbot_clean/db.py:92-95 | a second `get_or_create_shift` for the same key changes nothing |
| `Ledger.EnsureShiftInvariant` | shiftbot_admin_siw1_rd3/db.py:63-66 | creating a shift keeps keys unique and never sets a check-out without a check-in; recorded timestamps are never altered |
| `Ledger.EnsureShiftInvariantKeys` | shiftbot_admin_siw1_rd3/db.py:35 | `INSERT OR IGNORE` never duplicates a (user, date) key |
| `Ledger.CheckIn` | shiftbot_clean/db.py:104-120 | `set_check_in`: refuses when the row already has a check-in, otherwise writes the timestamp; a missing row matches nothing and still counts as success |
| `Ledger.CheckInInvariant` | shiftbot_clean/db.py:104-120 | check-in keeps the ledger invariant, and a timestamp once set is never changed |
| `Ledger.CheckInOutcome` | shiftbot_clean/db.py:104-120 | accepted iff the row has no check-in; a rejection is "already checked in" and changes nothing; acceptance sets only that row's check-in |
| `Ledger.CheckOut` | shiftbot_clean/db.py:123-141 | `set_check_out`: refuses a missing row or a row without check-in, then a row with a check-out; otherwise writes the timestamp |
| `Ledger.CheckOutInvariant` | shiftbot_clean/db.py:123-141 | check-out keeps the ledger invariant (no check-out without a check-in), and set timestamps are never changed |
| `Ledger.CheckOutOutcome` | shiftbot_clean/db.py:123-141 | "no check-in" iff the row is missing or has no check-in; "already checked out" iff both are set; rejections change nothing; acceptance sets only that row's check-out |
| `Ledger.CheckInTwice` | shiftbot_admin_siw1_rd3/db.py:68-77 | a second check-in on the same day is rejected as "already checked in" and leaves the ledger as the first left it |
| `Ledger.CheckOutBeforeCheckIn` | shiftbot_admin_siw1_rd3/db.py:79-85 | checking out of a freshly created shift is rejected as "no check-in" |
| `Ledger.CheckOutTwice` | shiftbot_admin_siw1_rd3/db.py:79-90 | after an accepted check-out, a second one is rejected as "already checked out" with no change |
| `Ledger.StrLeProperties` | shiftbot_clean/db.py:153 | SQLite's text order is total, antisymmetric and transitive |
| `Ledger.ByDeptNameTotalPreorder` | shiftbot_clean/db.py:153 | `ORDER BY department, full_name` (NULL first) is a total preorder, so the stable sort is well defined |
| `Ledger.DateLeTotalPreorder` | shiftbot_clean/db.py:212 | `ORDER BY work_date` is a total preorder |
| `Ledger.ByUserDateTotalPreorder` | shiftbot_clean/db.py:292 | `ORDER BY user_id, work_date` is a total preorder |
| `Ledger.ByDeptNameDateTotalPreorder` | shiftbot_admin_siw1_rd3/db.py:169 | `ORDER BY department, full_name, work_date` is a total preorder |
| `Ledger.ByDeptNameDateRefines` | shiftbot_admin_siw1_rd3/db.py:169 | rows sorted by department, name and date are also sorted by department and name |
| `Ledger.DateLe` | shiftbot_clean/db.py:189 | text order of two `YYYY-MM-DD` work dates, as (year, month, day) order |
| `Ledger.DateText` | shiftbot_admin_siw1_rd3/utils.py:11-12 | `strftime("%Y-%m-%d")`: four-digit year, two-digit month and day, joined by `-` |
| `Ledger.NextMonthStart` | shiftbot_clean/db.py:174-177 | the 1st of the following month, December rolling over to January of the next year |
| `Ledger.Truthy` | shiftbot_admin_siw1_rd3/db.py:166 | Python truthiness of a text column: neither NULL nor the empty string |
| `Ledger.Join` | shiftbot_clean/db.py:149-151 | `shifts s JOIN users u ON u.id = s.user_id`: each shift paired with its user, in shift order; a shift whose user id has no row is dropped |
| `Ledger.OnDate` | shiftbot_clean/db.py:152 | `WHERE s.work_date = ?` |
| `Ledger.ByDate` | shiftbot_clean/db.py:212 | `ORDER BY work_date` |
| `Ledger.ByDeptName` | shiftbot_clean/db.py:153 | `ORDER BY u.department, u.full_name`, NULL departments first |
| `Ledger.ByUserDate` | shiftbot_clean/db.py:292 | `ORDER BY s.user_id, s.work_date` |
| `Ledger.ByDeptNameDate` | shiftbot_admin_siw1_rd3/db.py:169 | `ORDER BY u.department, u.full_name, s.work_date` |
| `Ledger.TodayRows` | shiftbot_clean/db.py:144-155 | `fetch_today_shifts`: the shifts of the date joined with their users, ordered by department (NULL first) and full name |
| `Ledger.TodayRowsSpec` | shiftbot_clean/db.py:144-155 | the roster query returns exactly the joined rows of that date, as a multiset, sorted by department then name |
| `Totals.MinutesBetween` | shiftbot_admin_siw1_rd3/db.py:111-121 | 0 if an endpoint is missing or unparseable, 0 for a negative interval, otherwise the floor of the seconds over 60 |
| `Totals.BothRecorded` | shiftbot_clean/db.py:298-300 | `if not ci or not co: continue`: a shift counts only when both timestamps are recorded |
| `Totals.Closed` | shiftbot_clean/db.py:218-220 | a `shifts` row with both timestamps recorded |
| `Totals.JoinedClosed` | shiftbot_clean/db.py:298-300 | a joined row with both timestamps recorded |
| `Totals.ShiftMinutes` | shiftbot_admin_siw1_rd3/db.py:133-134 | a `shifts` row's minutes: `_minutes_between` of its check-in and check-out |
| `Totals.JoinedMinutes` | shiftbot_admin_siw1_rd3/db.py:184 | a joined row's minutes: `_minutes_between` of its check-in and check-out |
| `Totals.OpenShiftsAddNothing` | shiftbot_clean/db.py:191-197 | open and empty shifts add nothing to a total, and a total is never negative |
| `Totals.DayOf` | shiftbot_clean/db.py:224 | one `{"date": work_date, "minutes": mins}` entry for a row |
| `Totals.DayEntries` | shiftbot_clean/db.py:216-225 | one `{date, minutes}` entry per row, in row order |
| `Totals.DayEntriesSpec` | shiftbot_clean/db.py:216-225 | day entries carry the same minute total as their rows and keep date order |
| `Totals.AddRow` | shiftbot_clean/db.py:302-306 | one step of the `agg`/`totals` loop: the user's entry is created on first sight with the row's name and department and zero minutes, then its minutes grow by the row's |
| `Totals.Accumulate` | shiftbot_clean/db.py:296-308 | the `agg`/`totals` dict after the loop over `rows`, as `list(agg.values())` in insertion order |
| `Totals.TotalIndex` | shiftbot_clean/db.py:302-305 | the `agg` lookup finds an entry with that user id, and fails only when none exists |
| `Totals.SetdefaultAdd` | shiftbot_clean/db.py:302-305 | `agg.setdefault(uid, {...})["minutes"] += m` as a step on the list of totals |
| `Totals.AccumulateBuckets` | shiftbot_clean/db.py:296-308 | per-user totals line up with grouping the rows by user id: same keys in first-appearance order, the name and department of the first row, the sum of the group's minutes |
| `Totals.AddRowMatches` | shiftbot_clean/db.py:300-306 | one row keeps the per-user totals and the by-user groups in step: same users in the same order, first row's name and department, group sums |
| `Totals.AccumulateSpec` | shiftbot_clean/db.py:296-308 | a user has an entry iff it has a counted row, and its minutes are the sum over its rows |
| `Totals.AccumulateDistinct` | shiftbot_clean/db.py:296-308 | no user appears twice among the totals |
| `Totals.AccumulateSum` | shiftbot_clean/db.py:296-308 | the per-user totals add up to the total of all counted rows |
| `Totals.AccumulateFromRows` | shiftbot_clean/db.py:296-308 | every entry's id, name and department come from some input row |
| `Totals.AccumulateAscending` | shiftbot_clean/db.py:292-308 | rows ordered by user id give totals in strictly ascending id order |
| `Totals.AccumulateOrdered` | shiftbot_admin_siw1_rd3/db.py:169-192 | rows ordered by department and name give totals in that same order |
| `Totals.HalfOpenMonth` | shiftbot_clean/db.py:183-189 | `work_date>=start AND work_date<end` with the bounds of `_month_bounds` |
| `Totals.HalfOpenMonthSpec` | shiftbot_clean/db.py:189 | `start <= work_date < end` selects exactly the dates of that month |
| `Totals.MonthPrefix` | shiftbot_admin_siw1_rd3/db.py:124 | `f"{year:04d}-{month:02d}-"` |
| `Totals.PrefixMonth` | shiftbot_admin_siw1_rd3/db.py:124-129 | `work_date LIKE month_prefix + "%"`: the date's text starts with the prefix |
| `Totals.PadIntExact` | shiftbot_admin_siw1_rd3/db.py:124 | `{n:04d}`/`{n:02d}` of a number below 10^width is exactly width characters |
| `Totals.PadIntInjective` | shiftbot_admin_siw1_rd3/db.py:124 | zero-padded renderings of different numbers differ |
| `Totals.FieldPrefix` | shiftbot_admin_siw1_rd3/db.py:128 | a padded field followed by "-" is a prefix of another only if the numbers are equal |
| `Totals.PrefixMonthSpec` | shiftbot_admin_siw1_rd3/db.py:124-128 | `LIKE 'YYYY-MM-%'` selects exactly the dates of that month |
| `Totals.PrefixMonthSelects` | shiftbot_admin_siw1_rd3/db.py:124-128 | a date matching the prefix lies in that year and month |
| `Totals.MonthFiltersAgree` | shiftbot_admin_siw1_rd3/db.py:124-128 | the prefix filter and the half-open range select the same well-formed dates |
| `CleanDb.MonthBounds` | shiftbot_clean/db.py:172-178 | `_month_bounds`: the 1st of the month and the 1st of the next month, December rolling over |
| `CleanDb.MonthBoundsSpec` | shiftbot_clean/db.py:172-178 | the bounds are the 1st of the month and the 1st of the next month (December rolls to January of the next year); the half-open range holds exactly that month's dates |
| `CleanDb.Database.constructor` | shiftbot_clean/db.py:20-37 | empty tables |
| `CleanDb.Database.CreateUser` | shiftbot_clean/db.py:63-78 | the users table after insert-or-ignore then rename; the returned row is the user's, with the new name |
| `CleanDb.Database.SetUserDepartment` | shiftbot_clean/db.py:81-84 | only the users table changes, as `SetDepartment` |
| `CleanDb.Database.GetOrCreateShift` | shiftbot_clean/db.py:88-101 | the shifts table is `EnsureShift` of the old one, and the row returned is the one for the key |
| `CleanDb.CheckInReply` | shiftbot_clean/db.py:113-120 | `(True, "OK")` on acceptance, else `(False, "Приход уже отмечен.")` |
| `CleanDb.CheckOutReply` | shiftbot_clean/db.py:132-141 | `(False, "Сначала отметьте приход.")` for a missing row or check-in, `(False, "Уход уже отмечен.")`, else `(True, "OK")` |
| `CleanDb.Database.SetCheckIn` | shiftbot_clean/db.py:104-120 | reply and new table are those of the check-in state machine; the invariant is kept |
| `CleanDb.Database.SetCheckOut` | shiftbot_clean/db.py:123-141 | reply and new table are those of the check-out state machine; the invariant is kept |
| `CleanDb.Database.LogEvent` | shiftbot_clean/db.py:159-168 | the event is appended and nothing else changes |
| `CleanDb.Database.FetchTodayShifts` | shiftbot_clean/db.py:144-155 | exactly the day's joined rows, sorted by department then name |
| `CleanDb.HalfOpen` | shiftbot_clean/db.py:189 | `user_id=? AND work_date>=? AND work_date<?` |
| `CleanDb.MonthShifts` | shiftbot_clean/db.py:183-190 | the user's shifts in the half-open month of `_month_bounds`, in table order |
| `CleanDb.MonthMinutes` | shiftbot_clean/db.py:181-197 | the month's minutes: the sum over the month's shifts (open ones add 0, see `Totals.OpenShiftsAddNothing`) |
| `CleanDb.Database.MonthMinutesForUser` | shiftbot_clean/db.py:181-197 | the loop total equals the month's minute sum |
| `CleanDb.ClosedDays` | shiftbot_clean/db.py:208-225 | the rows in `work_date` order, closed ones only, one `{date, minutes}` entry each |
| `CleanDb.Database.DaysFor` | shiftbot_clean/db.py:216-225 | the loop's entries are the closed selected rows, in date order |
| `CleanDb.Database.ClosedEntries` | shiftbot_clean/db.py:216-225 | the loop skips rows without both times and emits one entry per closed row, in row order |
| `CleanDb.Database.MonthDaysForUser` | shiftbot_clean/db.py:200-225 | one entry per closed shift of the month, zero-minute ones included |
| `CleanDb.Between` | shiftbot_clean/db.py:238 | `user_id=? AND work_date BETWEEN ? AND ?`, both bounds included |
| `CleanDb.Database.RangeDaysForUser` | shiftbot_clean/db.py:228-252 | the same, over an inclusive date range |
| `CleanDb.Database.MonthMinutesByUser` | shiftbot_clean/db.py:255-308 | the loop's `agg` list equals the per-user totals of the period |
| `CleanDb.Database.ClosedTotals` | shiftbot_clean/db.py:296-308 | the `agg` loop leaves the per-user totals of the closed rows, each user entered on first sight |
| `CleanDb.ClosedDaysOrdered` | shiftbot_clean/db.py:208-224 | day lists come out in date order |
| `CleanDb.ClosedDaysTotal` | shiftbot_clean/db.py:216-225 | one entry per closed shift, and the entries add up to the rows' minute total |
| `CleanDb.ClosedDaysMembers` | shiftbot_clean/db.py:216-225 | every closed row has its entry, and every entry comes from a closed row |
| `CleanDb.MonthMinutesSpec` | shiftbot_clean/db.py:181-197 | the month total is non-negative and equals the sum of the month's day list |
| `CleanDb.RangeIncludesBounds` | shiftbot_clean/db.py:235-240 | closed shifts on the first and on the last date of the range are listed |
| `CleanDb.InPeriod` | shiftbot_clean/db.py:264-283 | the `WHERE` of `month_minutes_by_user`: from `start_day` to the next month's 1st (exclusive) or to `end_day` (inclusive), plus the department when one is given |
| `CleanDb.PeriodRows` | shiftbot_clean/db.py:284-294 | the joined rows within the period (and department) in `ORDER BY s.user_id, s.work_date` |
| `CleanDb.PeriodTotals` | shiftbot_clean/db.py:255-308 | `month_minutes_by_user`'s result: per-user totals of the closed rows of the period, in user id order |
| `CleanDb.PeriodTotalsSpec` | shiftbot_clean/db.py:255-308 | entries ascend by user id; a user has an entry iff it has a closed shift in the period (even a 0-minute one); the entry's minutes are its sum; the entries add up to the period total |
| `AdminDb.Database.constructor` | shiftbot_admin_siw1_rd3/db.py:15-40 | empty tables |
| `AdminDb.Database.CreateUser` | shiftbot_admin_siw1_rd3/db.py:50-56 | insert-or-ignore: an existing user is left as it was |
| `AdminDb.Database.SetUserDepartment` | shiftbot_admin_siw1_rd3/db.py:58-61 | only the users table changes, as `SetDepartment` |
| `AdminDb.Database.GetOrCreateShift` | shiftbot_admin_siw1_rd3/db.py:63-66 | `EnsureShift`; recorded timestamps are untouched |
| `AdminDb.CheckInReply` | shiftbot_admin_siw1_rd3/db.py:73-77 | `(True, "Ок")` on acceptance, else `(False, "Уже отмечен приход")` |
| `AdminDb.CheckOutReply` | shiftbot_admin_siw1_rd3/db.py:84-90 | `(False, "Сначала отметь приход")` for a missing row or check-in, `(False, "Уже отмечен уход")`, else `(True, "Ок")` |
| `AdminDb.Database.SetCheckIn` | shiftbot_admin_siw1_rd3/db.py:68-77 | reply and new table are those of the check-in state machine |
| `AdminDb.Database.SetCheckOut` | shiftbot_admin_siw1_rd3/db.py:79-90 | reply and new table are those of the check-out state machine |
| `AdminDb.Database.FetchTodayShifts` | shiftbot_admin_siw1_rd3/db.py:92-106 | exactly the day's joined rows, sorted by department then name |
| `AdminDb.InMonth` | shiftbot_admin_siw1_rd3/db.py:124-129 | `user_id=? AND work_date LIKE "YYYY-MM-%"` |
| `AdminDb.MonthMinutes` | shiftbot_admin_siw1_rd3/db.py:123-135 | the sum of `_minutes_between` over the user's prefix-selected shifts |
| `AdminDb.Database.MonthMinutesForUser` | shiftbot_admin_siw1_rd3/db.py:123-135 | the loop total equals the prefix-selected month sum |
| `AdminDb.Database.MonthDaysForUser` | shiftbot_admin_siw1_rd3/db.py:137-152 | the loop's list equals the positive-minute day list |
| `AdminDb.Database.PositiveDays` | shiftbot_admin_siw1_rd3/db.py:147-152 | the loop keeps exactly the rows with positive minutes, one entry each, in row order |
| `AdminDb.Worked` | shiftbot_admin_siw1_rd3/db.py:149-150 | `mins > 0`: a shift that yields a positive number of minutes |
| `AdminDb.MonthDays` | shiftbot_admin_siw1_rd3/db.py:137-152 | `month_days_for_user`'s result: the user's rows of the month in date order, one entry for each with positive minutes |
| `AdminDb.MonthDaysSpec` | shiftbot_admin_siw1_rd3/db.py:137-152 | the list is in date order, every entry has minutes > 0, and it adds up to the month total |
| `AdminDb.PositiveDaysSpec` | shiftbot_admin_siw1_rd3/db.py:137-152 | over any selection: date order, only positive entries, and the total equals the minutes of all rows |
| `AdminDb.MonthDaysMembers` | shiftbot_admin_siw1_rd3/db.py:137-152 | an entry exists exactly for each shift of the month with positive minutes |
| `AdminDb.Database.MonthMinutesByUser` | shiftbot_admin_siw1_rd3/db.py:154-192 | the loop's `totals` list equals the per-user totals of the period |
| `AdminDb.Database.CountedTotals` | shiftbot_admin_siw1_rd3/db.py:180-192 | the `totals` loop leaves the per-user totals of the rows in the day range with positive minutes |
| `AdminDb.MonthAndDept` | shiftbot_admin_siw1_rd3/db.py:163-168 | `work_date LIKE ?`, and `u.department = ?` only when the department is truthy |
| `AdminDb.PeriodRows` | shiftbot_admin_siw1_rd3/db.py:159-171 | the joined rows so selected, in `ORDER BY u.department, u.full_name, s.work_date` |
| `AdminDb.InRange` | shiftbot_admin_siw1_rd3/db.py:174-178 | `_in_range` on the day number: at least `start_day`, and at most `end_day` when one is given |
| `AdminDb.Counted` | shiftbot_admin_siw1_rd3/db.py:181-186 | the rows the loop does not skip: `_in_range` of the day, then `mins > 0` |
| `AdminDb.PeriodTotals` | shiftbot_admin_siw1_rd3/db.py:154-192 | `month_minutes_by_user`'s result: per-user totals of the month rows in the day range with positive minutes, in department/name order |
| `AdminDb.PeriodTotalsSpec` | shiftbot_admin_siw1_rd3/db.py:154-192 | entries are in department/name order with distinct users; a user has an entry iff it has positive minutes among the day-range rows; entry minutes are its sum and positive; the entries add up to the period total |
| `AdminDb.PeriodTotalsOrdered` | shiftbot_admin_siw1_rd3/db.py:169-192 | the totals follow the query's department/name order and hold no user twice |
| `AdminDb.PeriodTotalsSums` | shiftbot_admin_siw1_rd3/db.py:180-192 | a user has an entry iff it has counted rows; the entry is their positive sum; entries add up to the counted minutes |
| `Variants.MonthSelectionsAgree` | shiftbot_admin_siw1_rd3/db.py:124-130 | on well-formed dates the prefix query and the half-open range select the same rows, in the same order |
| `Variants.MonthMinutesAgree` | shiftbot_admin_siw1_rd3/db.py:123-135 | both variants give the same month total |
| `Variants.DropZeroDays` | shiftbot_admin_siw1_rd3/db.py:148-151 | the admin day list is the clean day list with zero-minute entries removed |
| `Variants.MonthDaysAgree` | shiftbot_admin_siw1_rd3/db.py:137-152 | the admin month day list is the clean one without its zero-minute days |
| `AdminUtils.MmToHhmm` | shiftbot_admin_siw1_rd3/utils.py:30-33 | the text has at least five characters, with ":" third from the end |
| `AdminUtils.MmToHhmmRoundTrip` | shiftbot_admin_siw1_rd3/utils.py:30-33 | the hours field reads back as `n div 60` and the minutes field as `n mod 60`, which is below 60; together they recover `n` |
| `AdminMain.IsAdmin` | shiftbot_admin_siw1_rd3/main.py:41-42 | `is_admin`: the user is one of the admin ids or is the managers' chat id |
| `AdminMain.InsideGeofence` | shiftbot_admin_siw1_rd3/main.py:89-91 | `_inside_geofence`: a distance equal to the radius counts as inside |
| `AdminMain.Registered` | shiftbot_admin_siw1_rd3/main.py:96-98 | the guard of `on_location`: the user exists and has a non-empty department |
| `AdminMain.DeptHeading` | shiftbot_admin_siw1_rd3/main.py:136 | `department or "Без подразделения"`, shared by the roster and the summary |
| `AdminMain.DeptLabel` | shiftbot_admin_siw1_rd3/main.py:136 | the roster groups a row under its department, or "Без подразделения" when that is NULL or empty |
| `AdminMain.ClockText` | shiftbot_admin_siw1_rd3/main.py:141-142 | `ts[11:16]`: the `HH:MM` of a stored timestamp, or the placeholder when it is missing |
| `AdminMain.ReportText` | shiftbot_admin_siw1_rd3/main.py:130-146 | `build_report_text`: "Сегодня отметок нет." for no rows, otherwise the header and department blocks joined by newlines and stripped |
| `AdminMain.RowLine` | shiftbot_admin_siw1_rd3/main.py:141-144 | `f"• {fi}: {ci} — {co}"` with the clock texts of check-in and check-out |
| `AdminMain.Section` | shiftbot_admin_siw1_rd3/main.py:139-145 | a department's block: `<b>dept</b>`, one line per row, then an empty line |
| `AdminMain.Sections` | shiftbot_admin_siw1_rd3/main.py:138-145 | the blocks of all departments, in the order the dict first saw them |
| `AdminMain.ReportHeader` | shiftbot_admin_siw1_rd3/main.py:137 | `f"📊 Отчёт за {today}\n"` |
| `AdminMain.ReportParts` | shiftbot_admin_siw1_rd3/main.py:134-145 | the header followed by the blocks of the rows grouped by department label |
| `AdminMain.Trunc` | shiftbot_admin_siw1_rd3/main.py:107 | `int()` of a float truncates toward zero |
| `AdminMain.RowLines` | shiftbot_admin_siw1_rd3/main.py:140-144 | one roster line per row, in order |
| `AdminMain.SectionsLength` | shiftbot_admin_siw1_rd3/main.py:138-145 | each department contributes a heading, its lines and a blank line |
| `AdminMain.SectionsContain` | shiftbot_admin_siw1_rd3/main.py:138-145 | every grouped row's line appears in the report |
| `AdminMain.SectionContains` | shiftbot_admin_siw1_rd3/main.py:138-145 | a row's line lies in its department's block |
| `AdminMain.ReportPartsSpec` | shiftbot_admin_siw1_rd3/main.py:130-146 | the report is the header, then per department a heading, its lines and a blank; each department's group holds exactly that department's rows in order; every row's line is present |
| `AdminMain.ParseYearMonth` | shiftbot_admin_siw1_rd3/main.py:208-211 | `map(int, args[1].split("-"))` into two names: exactly two fields, each an integer, else the format error |
| `AdminMain.ParseYearMonthOf` | shiftbot_admin_siw1_rd3/main.py:208-211 | `YYYY-MM` parses back to its year and month |
| `AdminMain.Part` | shiftbot_admin_siw1_rd3/main.py:212-215 | the part is 1 or 2 only when the third word is exactly "1" or "2"; otherwise none |
| `AdminMain.DeptArg` | shiftbot_admin_siw1_rd3/main.py:213-217 | the department is every word from the fourth on, joined by single spaces; none with fewer words |
| `AdminMain.PartRange` | shiftbot_admin_siw1_rd3/main.py:219-225 | part 1 selects days 1..15, part 2 days 16 onward, anything else the whole month |
| `AdminMain.TotalLabel` | shiftbot_admin_siw1_rd3/main.py:235 | `r["department"] or "Без подразделения"` for a per-user total |
| `AdminMain.DeptTotals` | shiftbot_admin_siw1_rd3/main.py:232-241 | the totals grouped by department label in first-appearance order, each with `sum(x["minutes"] for x in arr)` |
| `AdminMain.ToDeptTotals` | shiftbot_admin_siw1_rd3/main.py:240-241 | each department's total is the sum of its members' minutes |
| `AdminMain.DeptTotalsSpec` | shiftbot_admin_siw1_rd3/main.py:232-241 | the department totals add up to the sum over all items; each department holds exactly its items |
| `AdminMain.HoursSumReply` | shiftbot_admin_siw1_rd3/main.py:201-246 | `cmd_hours_sum`: refusal for non-admins, usage for fewer than two words, format error for a bad month, no data for an empty period, else the department blocks and grand total |
| `AdminMain.HoursSumSpec` | shiftbot_admin_siw1_rd3/main.py:201-246 | non-admins are refused and only them; a summary's grand total is the sum of the department totals, is positive, and equals the minutes counted in the selected day range |
| `AdminMain.SummaryTotals` | shiftbot_admin_siw1_rd3/main.py:227-246 | grand total = sum of department totals = sum over the counted rows, positive whenever there are items |
| `AdminMain.Acting` | shiftbot_admin_siw1_rd3/main.py:99-101 | `PENDING_ACTION.get(id) in ("in", "out")` |
| `AdminMain.AttendanceBot.constructor` | shiftbot_admin_siw1_rd3/main.py:39 | no pending actions and no notices |
| `AdminMain.AttendanceBot.Notify` | shiftbot_admin_siw1_rd3/main.py:44-46 | a notice is emitted only when a managers' chat is configured |
| `AdminMain.AttendanceBot.AskLocation` | shiftbot_admin_siw1_rd3/main.py:69-87 | the pending action is set only for a user with a department; otherwise nothing changes |
| `AdminMain.AttendanceBot.OnLocation` | shiftbot_admin_siw1_rd3/main.py:93-128 | an unregistered user, a missing department or no pending action leaves everything unchanged; outside the radius there is exactly one notice and no ledger change, and the action is kept; inside, the shift is ensured and then checked in or out; the action is cleared and a notice sent only on acceptance |
| `AdminMain.AttendanceBot.BuildReportText` | shiftbot_admin_siw1_rd3/main.py:130-146 | the text is the roster rendering of today's rows |
| `AdminMain.AttendanceBot.GroupRows` | shiftbot_admin_siw1_rd3/main.py:134-136 | the loop's `by_dept` is the grouping of rows by department label |
| `AdminMain.AttendanceBot.RenderParts` | shiftbot_admin_siw1_rd3/main.py:137-145 | the loop's parts are the header followed by every section |
| `AdminMain.AttendanceBot.AppendSection` | shiftbot_admin_siw1_rd3/main.py:139-145 | one department's section is appended |
| `AdminMain.AttendanceBot.HoursSum` | shiftbot_admin_siw1_rd3/main.py:201-246 | the reply is the `/hours_sum` outcome for the caller's rights and the arguments |
| `AdminMain.AttendanceBot.GroupTotals` | shiftbot_admin_siw1_rd3/main.py:232-237 | the loop groups the entries by department label in first-seen order and sums all their minutes |
| `AdminMain.AttendanceBot.SumDepartments` | shiftbot_admin_siw1_rd3/main.py:240-241 | one department total per group, in group order, each the sum of its entries |
| `Seqs.SetdefaultAppend` | shiftbot_admin_siw1_rd3/main.py:136 | `by_dept.setdefault(d, []).append(r)` as a step on the list of groups |
| `Format.WordCountStrip` | shiftbot_clean/main.py:273-274 | stripping does not change the number of words |
| `Calendar.DayNumberOrder` | shiftbot_clean/main.py:129-130 | for valid dates, comparing day numbers agrees with calendar order |
| `Calendar.NextDaySpec` | shiftbot_clean/main.py:449 | `date + timedelta(days=1)` is the valid date numbered one higher (below 9999-12-31) |
| `Calendar.NextMonthStartSpec` | shiftbot_clean/main.py:140-143 | the first of the next month is valid and lies a month's length of days later |
| `CleanMain.Upsert` | shiftbot_clean/main.py:76-87 | `upsert_user`: a known user gets the new name and username and keeps `created_at`; an unknown one is inserted, created now |
| `CleanMain.UpsertSpec` | shiftbot_clean/main.py:76-87 | the user is present with the new name and username; `created_at` is kept for an existing user and set for a new one; other users are untouched; a repeat is a no-op |
| `CleanMain.IsOpenOf` | shiftbot_clean/main.py:93 | `user_id=? AND end_ts IS NULL` |
| `CleanMain.LatestOpen` | shiftbot_clean/main.py:90-95 | the row found is an open shift of the user with the latest start; `None` only when the user has none |
| `CleanMain.CloseLatest` | shiftbot_clean/main.py:107-120 | `end_shift`: the latest open shift gets the end time and location, and the row as read before the update is returned; nothing when none is open |
| `CleanMain.CloseLatestSpec` | shiftbot_clean/main.py:107-120 | closing returns `None` iff nothing is open; otherwise only the open row changes, gaining the end time and location; the row returned is the row as it was before; afterwards nothing is open |
| `CleanMain.Arrive` | shiftbot_clean/main.py:300-317 | `arrived`: ask for the name when unregistered, refuse when a shift is open, else open one at now |
| `CleanMain.ArriveSpec` | shiftbot_clean/main.py:300-317 | arrival succeeds iff the user is registered and has no open shift, appending one open row; otherwise nothing changes; at most one open shift per user is preserved |
| `CleanMain.Leave` | shiftbot_clean/main.py:320-338 | `left`: ask for the name when unregistered, refuse when nothing is open, else close the shift and report its length |
| `CleanMain.LeaveSpec` | shiftbot_clean/main.py:320-338 | leaving succeeds iff the user is registered and has an open shift, whose duration is measured to now; otherwise nothing changes; afterwards the user has no open shift |
| `CleanMain.ArriveThenLeave` | shiftbot_clean/main.py:300-338 | arriving and then leaving appends one closed shift and reports its duration |
| `CleanMain.Between` | shiftbot_clean/main.py:128-130 | `user_id=? AND start_ts >= ? AND (end_ts <= ? OR end_ts IS NULL)` |
| `CleanMain.ByStart` | shiftbot_clean/main.py:131 | `ORDER BY start_ts ASC` |
| `CleanMain.ShiftsBetween` | shiftbot_clean/main.py:123-135 | `list_shifts_between`: the user's shifts starting at or after `since` and open or ended by `until`, by start time |
| `CleanMain.ShiftsBetweenSpec` | shiftbot_clean/main.py:123-135 | a row is listed iff it is the user's, starts at or after `since` and is open or ends by `until`; the list is a permutation of that selection sorted by start |
| `CleanMain.ShiftDurationSec` | shiftbot_clean/main.py:155-158 | `shift_duration_sec`: end minus start, with now standing in for the end of an open shift |
| `CleanMain.TotalSeconds` | shiftbot_clean/main.py:260-262 | the loop total equals the sum of the durations |
| `CleanMain.MonthBounds` | shiftbot_clean/main.py:138-144 | `month_bounds`: the month's 1st and the next month's 1st at 00:00; none at 9999-12, where `replace(year=10000)` raises |
| `CleanMain.MonthBoundsSpec` | shiftbot_clean/main.py:138-144 | the bounds are the month's 1st and the next month's 1st (December rolls over); a day lies between them iff it is in that month; they are exactly the month's length apart; `None` only for 9999-12 |
| `CleanMain.HumanTd` | shiftbot_clean/main.py:161-164 | `human_td`: floor-divided hours, then the remaining minutes as two digits |
| `CleanMain.HumanTdRoundTrip` | shiftbot_clean/main.py:161-164 | the minutes field is in 0..59, hours and minutes bracket the seconds, and the text reads back as `seconds div 60` minutes |
| `CleanMain.RegFullname` | shiftbot_clean/main.py:272-280 | fewer than two words is refused and writes no user; otherwise the stripped name is stored through `upsert_user` |
| `CleanMain.Store.constructor` | shiftbot_clean/main.py:41-68 | empty tables |
| `CleanMain.Store.UpsertUser` | shiftbot_clean/main.py:76-87 | the users table becomes `Upsert` of the old one; shifts are unchanged |
| `CleanMain.Store.OpenShiftExists` | shiftbot_clean/main.py:90-95 | `None` iff the user has no open shift, else the latest open one |
| `CleanMain.Store.StartShift` | shiftbot_clean/main.py:99-103 | one open row is appended |
| `CleanMain.Store.EndShift` | shiftbot_clean/main.py:107-120 | the new table and the returned row are those of closing the latest open shift |
| `CleanMain.Store.ListShiftsBetween` | shiftbot_clean/main.py:123-135 | the rows of `ShiftsBetween` |
| `CleanMain.Arrived` | shiftbot_clean/main.py:300-317 | reply and new shifts table are those of `Arrive` |
| `CleanMain.Left` | shiftbot_clean/main.py:320-338 | reply and new shifts table are those of `Leave` |
| `CleanMain.Start` | shiftbot_clean/main.py:245-268 | an unregistered user is asked for a name; otherwise the reply is the sum of shift durations over the current calendar month |
| `CleanMain.Nav` | shiftbot_clean/main.py:401-414 | the month step of `cal_common`: "prev" goes back one month, any other direction forward, wrapping the year |
| `CleanMain.NavSpec` | shiftbot_clean/main.py:401-414 | the month stays in 1..12 and moves one step back for "prev" and forward otherwise, wrapping the year; going forward and then back returns to the start |
| `CleanMain.Ordered` | shiftbot_clean/main.py:445-446 | `finish_report` swaps the picked dates when the "to" date comes first |
| `CleanMain.ReportRangeSpec` | shiftbot_clean/main.py:445-451 | reversed dates are swapped so that from ≤ to; a day lies in [from, to + 1 day) iff it lies between the two dates inclusive |
| `CleanMain.LineOf` | shiftbot_clean/main.py:466-470 | a row's start, end (or none) and `shift_duration_sec` |
| `CleanMain.ReportLines` | shiftbot_clean/main.py:465-470 | one line per listed shift, in order |
| `CleanMain.FinishReport` | shiftbot_clean/main.py:441-474 | the report covers the ordered range; "hours" gives the summed durations; otherwise it gives "nothing found" for an empty list, else one line per listed shift |

## Left out

- SQLite and aiosqlite plumbing are not modelled: connections, PRAGMAs, `init_db`'s SQL text and the `get_user` helper as such. Tables are in-memory sequences, and `ORDER BY` ties fall back to rowid order through the stable sort.
- The `users` foreign key is not enforced in the model. `PRAGMA foreign_keys` is set only on `init_db`'s own connection, so the ledger's connections do not enforce it either.
- `haversine_m` (floating-point trigonometry) is not modelled. The distance is an input to `OnLocation`.
- The clock is not modelled: `now_local`, `today_local_str`, `now_iso` and `datetime.now(TZ)` are parameters. Where a handler reads the clock twice, the model passes one value.
- Microseconds are not modelled. `shift_duration_sec` of an open shift uses whole seconds and does not model truncating a fractional `total_seconds()`.
- Totals.MinutesBetween: works on whole seconds, so it can be one minute above the source. `shiftbot_admin_siw1_rd3/main.py:113` stores `now_local().isoformat()` with microseconds, and `_minutes_between` (`shiftbot_admin_siw1_rd3/db.py:111-118`) floors `total_seconds() // 60` of the fractional difference. A check-in at 09:00:00.9 and a check-out at 09:01:00.1 give 0 minutes there, but 1 minute on whole seconds. The same holds for the minute arithmetic of `shiftbot_clean/db.py`.
- ISO parsing and formatting and `strftime` are not modelled. A stored timestamp is an integer, or `None` when missing.
- A non-empty stored timestamp that does not parse is not modelled for `shiftbot_clean/db.py`. There `month_minutes_for_user`, the day lists and `month_minutes_by_user` call `datetime.fromisoformat` without catching its `ValueError` (`shiftbot_clean/db.py:194-195`, `221-222`, `248-249`, `301`), so the whole call fails. The model has no such value: an unparseable timestamp is treated as missing and the row is skipped, which is what `shiftbot_admin_siw1_rd3/db.py` does.
- The exact wording of replies is not modelled. Replies are datatype values; only the roster text of `build_report_text` is rendered line by line.
- Keyboards are not modelled: `keyboards.py` in both variants and `calendar_kb`, `main_kb` and `settings_kb` in `shiftbot_clean/main.py`. The aiogram FSM storage is left out too. The report's `report_kind` and date range are parameters of `FinishReport`.
- Parts of `cal_common` are not modelled: its "pick" branch and the parsing of callback data. Its month navigation is modelled as `Nav`. `cal_from_today`, `cal_to_today`, `cal_reset`, `my_hours` and `my_shifts` only set FSM state and send keyboards, and are not modelled either.
- Several handlers are not modelled: `got_location`, `settings*`, `cmd_help` and `cmd_id` in `shiftbot_clean/main.py`, and `cmd_start`, `cb_set_dept`, `cmd_myhours`, `cmd_mydays`, `cmd_report` and the scheduler in `shiftbot_admin_siw1_rd3/main.py`. They forward to ledger operations that are modelled, or only send text.
- `shiftbot_clean/utils.py` holds only the clock and haversine, and is not part of this model.
- Concurrency is not modelled. The model is sequential, so the race between concurrent check-then-set calls is out of scope.
- Configuration read from environment variables is not modelled. The radius, admin ids and managers' chat are constructor parameters.
- Python's `int()` leniency is not modelled: it accepts surrounding whitespace, underscores and non-ASCII digits. `AdminMain.ParseYearMonth` accepts only ASCII digits with an optional sign.
- A `message.text` of `None` (a non-text message) is not modelled.
- Readers of the `events` table are not modelled, because nothing in the core reads it.
- `datetime` overflow at year 9999 is modelled as results rather than exceptions. The month after 9999-12 is `MonthOutOfRange` in `Start`, and a report ending 9999-12-31 is `RangeOverflow`. In both cases the source would raise.

## Behaviour worth knowing

The model follows the code in each of these cases:

- **Zero-minute days.** `shiftbot_clean/db.py` keeps closed zero-minute shifts in its day lists. `shiftbot_admin_siw1_rd3/db.py` drops them. `Variants.MonthDaysAgree` states the difference, and `Variants.DropZeroDays` states the relation between the two lists.
- **Users with zero minutes.** `shiftbot_admin_siw1_rd3/db.py`'s `month_minutes_by_user` skips rows with zero minutes, so a user with no positive minutes has no entry (`AdminDb.PeriodTotalsSpec`). `shiftbot_clean/db.py` keeps a user whose closed shifts total 0 minutes (`CleanDb.PeriodTotalsSpec`).
- **Day-of-month filter.** `shiftbot_admin_siw1_rd3/db.py`'s `month_minutes_by_user` selects the month by its `YYYY-MM-` prefix and then tests the day-of-month number (`AdminDb.InRange`). `shiftbot_clean/db.py` uses the date range `[y-mm-start_day, first of next month)` or `[y-mm-start_day, y-mm-end_day]` (`CleanDb.InPeriod`).
- **Check-in on a missing row.** `shiftbot_clean/db.py`'s `set_check_in` on a missing row updates nothing and still reports success. `Ledger.CheckIn` models that as written: the verdict is `Accepted` and the table is unchanged.
- **Roster order.** The SQL `ORDER BY u.department` puts a NULL department first. The roster text then labels that group "Без подразделения" (`AdminMain.DeptLabel`).
- **Overnight shifts.** `list_shifts_between` in `shiftbot_clean/main.py` keeps a shift only if it ends by `until`. A shift that starts inside the range but ends after `until` is not listed, and a month total leaves it out (`CleanMain.ShiftsBetweenSpec`).
