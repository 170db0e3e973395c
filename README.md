# Late-fee rule of the library client, in Dafny

This project models the overdue-fine rule of the borrowed-books screen of a
library-management mobile client, `calculateLateFee`. Given a loan's
"returned" flag, its due date and its stored fee, together with the state of
the late-fee schedule query (`initialFee`, `followingDateFee`) and the
current instant, the rule yields the fee shown to the patron.

- A returned loan gives back its stored fee unchanged.
- An open loan gets 0 while the schedule query is loading or has no data.
- Otherwise the initial fee is charged once if now is strictly after the due
  date. The per-day fee is then added once for each whole day late,
  counting down from `daysLate` to 1, so the first whole day is charged
  under both fees.

Modules:

- `Wrappers` holds `Option`.
- `Dates` holds instants (milliseconds since the epoch), the parsed due date
  (`Valid(ms)` or `InvalidDate`), `isAfter` (`IsAfter`) and date-fns
  `differenceInDays` (`DifferenceInDays` over `WholeDays`, truncation toward
  zero with 24-hour days).
- `LateFees` holds the schedule and query records and the closed-form
  specification `FeeOwed`. It also holds the imperative method
  `CalculateLateFee`, which runs the source's accumulator and count-down
  loop and is proved equal to `FeeOwed`. The lemmas about `FeeOwed` sit
  beside them.

The current time, read in the source with `new Date()`, is the parameter
`now`. Fees are integers in minor currency units.

An unparseable due date is not rejected. `parseISO` then yields the Invalid
Date, `isAfter` is false, `differenceInDays` is NaN and `NaN >= 1` is false,
so the fee of an open loan is silently 0. The model follows this:
`IsAfter(now, InvalidDate)` is false and `DifferenceInDays` returns `None`
(NaN), so `FeeOwed` is 0 there (third ensures of `FeeOwed`).

## Model

| member | source | states |
|---|---|---|
| `Dates.WholeDays` | app/borrowedBooks.tsx:61 | the day count `n` of a span is truncated toward zero: for a non-negative span `n*DAY <= span < (n+1)*DAY` and `n >= 0`; for a negative span `(n-1)*DAY < span <= n*DAY` and `n <= 0` |
| `Dates.DifferenceInDays` | app/borrowedBooks.tsx:59-61 | the day difference is a number exactly when the due date is valid (NaN otherwise); that number `d` is the count of whole days rounded toward zero: `d >= 0` and `d*DAY <= now - due < (d+1)*DAY` when now is at or after the due date, `d <= 0` and `(d-1)*DAY < now - due <= d*DAY` before it; `daysLate >= 1` implies now is strictly after the due date by at least a day; `daysLate <= 0` means less than a day late; when now is not after the due date, `daysLate <= 0` |
| `Dates.IsAfter` | app/borrowedBooks.tsx:64 | date-fns `isAfter` is strict and never holds against the Invalid Date: it is false whenever the due date is invalid, and false at exactly the due instant |
| `Dates.WholeDaysExact` | app/borrowedBooks.tsx:61 | a span within the `k`-th whole day (`k*DAY <= span < (k+1)*DAY`, `k >= 0`) counts as exactly `k` days |
| `Dates.WholeDaysMonotone` | app/borrowedBooks.tsx:61 | the whole-day count never decreases as the span grows |
| `LateFees.Ready` | app/borrowedBooks.tsx:56 | the schedule is usable only when the query is not loading and holds data: a usable query always carries a schedule, and a loading query is never usable |
| `LateFees.PerDayCharges` | app/borrowedBooks.tsx:68-72 | the loop read literally, adding the per-day fee once for each `i` from `days` down to 1; with a non-negative per-day fee the total is non-negative (its exact value is `PerDayChargesClosedForm`) |
| `LateFees.FeeOwed` | app/borrowedBooks.tsx:50-75 | a returned loan yields its stored fee whatever the schedule and time; an open loan with the query loading or without data yields 0; an open loan not strictly overdue (on time, early, or with an invalid due date) yields 0; overdue by less than one day yields exactly `initialFee`; with non-negative schedule fees an open loan's fee is non-negative |
| `LateFees.CalculateLateFee` | app/borrowedBooks.tsx:50-75 | the step-by-step accumulator with the count-down loop from `daysLate` to 1 (its invariant: the total so far is the initial part plus `PerDayCharges` of the days already counted) returns exactly the closed form `FeeOwed`: `(now > due ? initialFee : 0) + max(daysLate, 0) * followingDateFee` for an open loan with a schedule |
| `LateFees.PerDayChargesClosedForm` | app/borrowedBooks.tsx:67-72 | adding `followingDateFee` once per `i` from `daysLate` down to 1 adds it `daysLate` times when `daysLate >= 1` and not at all otherwise, i.e. `max(daysLate, 0) * followingDateFee` |
| `LateFees.WholeDaysLateFee` | app/borrowedBooks.tsx:61-74 | an open loan, overdue, with `k` whole days late (and perhaps part of another) owes `initialFee + k * followingDateFee`; with `k = 1` both fees are charged for the first day |
| `LateFees.PerDayImpliesInitial` | app/borrowedBooks.tsx:61-68 | whenever `daysLate >= 1`, now is strictly after the due date and the fee is `initialFee + daysLate * followingDateFee`: per-day fees never come without the initial fee |
| `LateFees.FeeOwedMonotone` | app/borrowedBooks.tsx:63-74 | with non-negative schedule fees the owed fee never decreases as `now` advances, for any loan and query state |
| `LateFees.ScheduleExamples` | app/borrowedBooks.tsx:63-74 | with schedule 50/10 and due 2024-01-01T00:00:00: 0 at exactly the due instant, 60 one day late, 80 three days late |

## Left out

- The screen itself: rendering, styles, the pull-to-refresh state and its
  timer, date formatting and the two-decimal display of the fee. These are
  presentation, not policy.
- `parseISO`: ISO-8601 parsing is a library call. Due dates arrive already
  parsed, as an instant or the Invalid Date.
- `Dates.WholeDays`: takes a day as exactly 24 hours. date-fns
  `differenceInDays` counts local calendar days, and these differ across
  daylight-saving changes.
- The clock: `new Date()` becomes the parameter `now`.
- Floating point: fees are JavaScript numbers in the source and exact
  integers (minor units) here, so rounding of repeated additions is not
  modelled.
- The data-fetching hooks and the navigation layout. Beyond the shape of the
  fee schedule and the loan record, they are request and caching wiring in
  foreign libraries. The query state enters only as `FeeQuery(isLoading, data)`.
- Idempotence: calling the rule twice on the same inputs gives the same
  result. `FeeOwed` is a function, and the ensures of `CalculateLateFee`
  fixes its result to that function, so no separate lemma states it.
