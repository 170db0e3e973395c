/** The overdue-fine rule of the borrowed-books screen: the fee a patron owes
    on one loan, given whether it was returned, its due date, the fee stored
    with it, the state of the late-fee schedule query and the current instant. */
module LateFees {
  import opened Wrappers
  import opened Dates

  /** The fee schedule served by the late-fee endpoint: a flat fee charged once
      a loan is overdue at all, and a fee charged for each whole day late.
      Amounts are in minor currency units. */
  datatype FeeSchedule = FeeSchedule(initialFee: int, followingDateFee: int)

  /** The late-fee query as the screen sees it: still loading or not, and the
      schedule if one has arrived. */
  datatype FeeQuery = FeeQuery(isLoading: bool, data: Option<FeeSchedule>)

  /** The schedule can be used: the query is no longer loading and holds data. */
  predicate Ready(q: FeeQuery): (ready: bool)
    ensures ready ==> q.data.Some?
    ensures q.isLoading ==> !ready
  {
    !q.isLoading && q.data.Some?
  }

  /** Both amounts of the schedule are non-negative. */
  predicate NonNegative(s: FeeSchedule) {
    s.initialFee >= 0 && s.followingDateFee >= 0
  }

  function Max(a: int, b: int): (m: int) {
    if a >= b then a else b
  }

  /** The per-day part read literally: `perDay` once for each `i` counted down
      from `days` to 1, and nothing when `days` is below 1. */
  function PerDayCharges(days: int, perDay: int): (total: int)
    ensures perDay >= 0 ==> total >= 0
    decreases days
  {
    if days < 1 then 0 else perDay + PerDayCharges(days - 1, perDay)
  }

  /** The fee owed, in closed form: the stored fee of a returned loan, 0 while
      no schedule is usable, and otherwise the initial fee if now is strictly
      after the due date plus the per-day fee times the whole days late (never
      a negative count). */
  function FeeOwed(isReturn: bool, dueDate: ParsedDate, fee: int, q: FeeQuery, now: Instant): (r: int)
    ensures isReturn ==> r == fee
    ensures !isReturn && !Ready(q) ==> r == 0
    ensures !isReturn && !IsAfter(now, dueDate) ==> r == 0
    ensures !isReturn && Ready(q) && IsAfter(now, dueDate) && now - dueDate.ms < DayMillis ==>
              r == q.data.value.initialFee
    ensures !isReturn && Ready(q) && NonNegative(q.data.value) ==> r >= 0
  {
    if isReturn then fee
    else if !Ready(q) then 0
    else
      var s := q.data.value;
      var wholeDays := match DifferenceInDays(now, dueDate)
                       case Some(d) => Max(d, 0)
                       case None => 0;
      (if IsAfter(now, dueDate) then s.initialFee else 0) + wholeDays * s.followingDateFee
  }

  /** `calculateLateFee`, step by step as the screen runs it: an accumulator
      that starts at 0, gains the initial fee when now is after the due date,
      and then gains the per-day fee in a loop from `daysLate` down to 1. */
  method CalculateLateFee(isReturn: bool, dueDate: ParsedDate, fee: int, q: FeeQuery, now: Instant)
    returns (lateFee: int)
    ensures lateFee == FeeOwed(isReturn, dueDate, fee, q, now)
  {
    if isReturn {
      return fee;
    }
    if q.isLoading || q.data.None? {
      return 0;
    }
    var s := q.data.value;
    var daysLate := DifferenceInDays(now, dueDate);

    lateFee := 0;
    if IsAfter(now, dueDate) {
      lateFee := lateFee + s.initialFee;
    }
    ghost var initialPart := lateFee;

    if daysLate.Some? && daysLate.value >= 1 {
      var i := daysLate.value;
      while i >= 1
        invariant 0 <= i <= daysLate.value
        invariant lateFee == initialPart + PerDayCharges(daysLate.value - i, s.followingDateFee)
        decreases i
      {
        lateFee := lateFee + s.followingDateFee;
        i := i - 1;
      }
      PerDayChargesClosedForm(daysLate.value, s.followingDateFee);
    }
  }

  /** The loop's literal reading agrees with the closed form: `perDay` is added
      exactly `days` times when `days >= 1` and never otherwise. */
  lemma {:induction false} PerDayChargesClosedForm(days: int, perDay: int)
    ensures PerDayCharges(days, perDay) == Max(days, 0) * perDay
    decreases days
  {
    if days >= 1 {
      PerDayChargesClosedForm(days - 1, perDay);
    }
  }

  /** An open loan late by `k` whole days (and possibly part of one more), with
      a usable schedule, owes the initial fee plus `k` per-day fees; for
      `k >= 1` the first whole day is charged under both fees. */
  lemma WholeDaysLateFee(dueDate: ParsedDate, fee: int, q: FeeQuery, now: Instant, k: int)
    requires Ready(q) && dueDate.Valid?
    requires 0 <= k
    requires dueDate.ms + k * DayMillis <= now < dueDate.ms + (k + 1) * DayMillis
    requires now > dueDate.ms
    ensures FeeOwed(false, dueDate, fee, q, now)
            == q.data.value.initialFee + k * q.data.value.followingDateFee
  {
  }

  /** Per-day fees are never charged without the initial fee: once a whole day
      has passed, the fee is the initial fee plus one per-day fee per day. */
  lemma PerDayImpliesInitial(dueDate: ParsedDate, fee: int, q: FeeQuery, now: Instant)
    requires Ready(q)
    requires DifferenceInDays(now, dueDate).Some? && DifferenceInDays(now, dueDate).value >= 1
    ensures IsAfter(now, dueDate)
    ensures FeeOwed(false, dueDate, fee, q, now)
            == q.data.value.initialFee
               + DifferenceInDays(now, dueDate).value * q.data.value.followingDateFee
  {
  }

  /** With a non-negative schedule, the fee of an open loan never decreases as
      time advances. */
  lemma FeeOwedMonotone(isReturn: bool, dueDate: ParsedDate, fee: int, q: FeeQuery,
                         now1: Instant, now2: Instant)
    requires now1 <= now2
    requires Ready(q) ==> NonNegative(q.data.value)
    ensures FeeOwed(isReturn, dueDate, fee, q, now1) <= FeeOwed(isReturn, dueDate, fee, q, now2)
  {
  }

  /** Worked examples with a schedule of 50 and 10 and a loan due at
      2024-01-01T00:00:00 (1704067200000 ms): on time owes 0, one day late
      owes 60, three days late owes 80. */
  lemma ScheduleExamples()
    ensures FeeOwed(false, Valid(1704067200000), 0, FeeQuery(false, Some(FeeSchedule(50, 10))), 1704067200000) == 0
    ensures FeeOwed(false, Valid(1704067200000), 0, FeeQuery(false, Some(FeeSchedule(50, 10))), 1704153600000) == 60
    ensures FeeOwed(false, Valid(1704067200000), 0, FeeQuery(false, Some(FeeSchedule(50, 10))), 1704326400000) == 80
  {
  }
}
