/** Instants and the two date-fns comparisons the late-fee rule relies on:
    `isAfter` and `differenceInDays`, over instants counted in milliseconds
    since the epoch, with a day taken as 24 hours. */
module Dates {
  import opened Wrappers

  /** Milliseconds since the epoch, the value `Date.prototype.getTime` gives. */
  type Instant = int

  /** What `parseISO` hands back: a valid date, or the Invalid Date whose
      time value is NaN. */
  datatype ParsedDate = Valid(ms: Instant) | InvalidDate

  /** Length of one whole day in milliseconds. */
  const DayMillis: int := 24 * 60 * 60 * 1000

  /** The number of whole days in a signed span of milliseconds, rounded
      toward zero (so a span 36 hours in the past counts as -1 day, not -2). */
  function WholeDays(span: int): (n: int)
    ensures span >= 0 ==> 0 <= n && n * DayMillis <= span < (n + 1) * DayMillis
    ensures span < 0 ==> n <= 0 && (n - 1) * DayMillis < span <= n * DayMillis
  {
    if span >= 0 then span / DayMillis else -((-span) / DayMillis)
  }

  /** `isAfter(left, right)`: strictly later; false whenever `right` is the
      Invalid Date, since any comparison with NaN is false. */
  predicate IsAfter(left: Instant, right: ParsedDate): (after: bool)
    ensures after ==> right.Valid?
    ensures right.Valid? && left == right.ms ==> !after
  {
    right.Valid? && left > right.ms
  }

  /** `differenceInDays(left, right)`: whole days from `right` to `left`,
      truncated toward zero; `None` stands for the NaN that an Invalid Date
      yields. */
  function DifferenceInDays(left: Instant, right: ParsedDate): (d: Option<int>)
    ensures d.Some? <==> right.Valid?
    ensures d.Some? && left >= right.ms ==>
              0 <= d.value && d.value * DayMillis <= left - right.ms < (d.value + 1) * DayMillis
    ensures d.Some? && left < right.ms ==>
              d.value <= 0 && (d.value - 1) * DayMillis < left - right.ms <= d.value * DayMillis
    ensures d.Some? && d.value >= 1 ==> IsAfter(left, right) && left - right.ms >= DayMillis
    ensures d.Some? && d.value <= 0 ==> left - right.ms < DayMillis
    ensures d.Some? && !IsAfter(left, right) ==> d.value <= 0
  {
    match right
    case Valid(r) => Some(WholeDays(left - r))
    case InvalidDate => None
  }

  /** A span that lies within the `k`-th whole day counts as exactly `k` days. */
  lemma WholeDaysExact(span: int, k: int)
    requires 0 <= k
    requires k * DayMillis <= span < (k + 1) * DayMillis
    ensures WholeDays(span) == k
  {
  }

  /** Whole days never decrease as the span grows. */
  lemma WholeDaysMonotone(a: int, b: int)
    requires a <= b
    ensures WholeDays(a) <= WholeDays(b)
  {
  }
}
