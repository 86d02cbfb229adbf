/** Go's `time.Duration` arithmetic as the deadline decision uses it.
    Instants are integers (nanoseconds on one time line, unbounded like Go's
    `time.Time`); a duration is an int64 count of nanoseconds. */
module Clock {

  const Second: int := 1_000_000_000
  const Hour: int := 3600 * Second

  /** The window the source compares against, in hours. */
  const AlertWindowHours: int := 24

  const MinDuration: int := -0x8000_0000_0000_0000
  const MaxDuration: int := 0x7fff_ffff_ffff_ffff

  type Duration = d: int | MinDuration <= d <= MaxDuration

  /** `t.Sub(u)`: the difference, clamped to the int64 range when it does
      not fit. */
  function Sub(t: int, u: int): (d: Duration)
    ensures MinDuration <= t - u <= MaxDuration ==> d == t - u
    ensures t - u > MaxDuration ==> d == MaxDuration
    ensures t - u < MinDuration ==> d == MinDuration
    ensures d < 0 <==> t < u
    ensures d == 0 <==> t == u
    ensures t - u <= d <= 0 || 0 <= d <= t - u
  {
    if t - u > MaxDuration then MaxDuration
    else if t - u < MinDuration then MinDuration
    else t - u
  }

  /** Go's `/` on integers: truncates toward zero. */
  function TruncDiv(a: int, b: int): (q: int)
    requires b > 0
  {
    if a >= 0 then a / b else -((-a) / b)
  }

  /** Go's `%` on integers: the remainder takes the sign of the dividend. */
  function TruncRem(a: int, b: int): (r: int)
    requires b > 0
    ensures a == b * TruncDiv(a, b) + r
    ensures a >= 0 ==> 0 <= r < b
    ensures a < 0 ==> -b < r <= 0
  {
    if a >= 0 then
      assert a == b * (a / b) + a % b;
      a - b * TruncDiv(a, b)
    else
      assert -a == b * ((-a) / b) + (-a) % b;
      a - b * TruncDiv(a, b)
  }

  /** Splitting a duration into hours and leftover nanoseconds loses
      nothing: `Hours()` is exactly `d / Hour` over the reals. */
  lemma HoursIsExact(d: Duration)
    ensures (TruncDiv(d, Hour) as real) + (TruncRem(d, Hour) as real) / (Hour as real)
            == (d as real) / (Hour as real)
  {
    var hour := TruncDiv(d, Hour);
    var nsec := TruncRem(d, Hour);
    assert d == Hour * hour + nsec;
    assert (d as real) == (Hour as real) * (hour as real) + (nsec as real);
  }

  /** `d.Hours() <= limit`, with `Hours()` computed as the library does,
      whole hours plus the remaining nanoseconds as a fraction of an hour,
      and compared exactly. It is the integer comparison `d <= limit * Hour`. */
  predicate HoursAtMost(d: Duration, limit: int)
    ensures HoursAtMost(d, limit) <==> d <= limit * Hour
  {
    var hour := TruncDiv(d, Hour);
    var nsec := TruncRem(d, Hour);
    HoursIsExact(d);
    assert (d as real) / (Hour as real) <= limit as real
           <==> (d as real) <= (limit as real) * (Hour as real);
    (hour as real) + (nsec as real) / (Hour as real) <= limit as real
  }

  /** Whether `SendVotingPeriodProposalAlerts` sends: the time elapsed since
      the voting end, `now.Sub(endTime)`, is at most 24 hours. The clamping
      of `Sub` never changes the answer, so this is the plain integer test
      `now - endTime <= 24h`. */
  predicate WithinAlertWindow(now: int, endTime: int)
    ensures WithinAlertWindow(now, endTime) <==> now - endTime <= AlertWindowHours * Hour
  {
    HoursAtMost(Sub(now, endTime), AlertWindowHours)
  }

  /** A deadline still ahead of `now`, or exactly at it, always qualifies. */
  lemma FutureDeadlineQualifies(now: int, endTime: int)
    requires now <= endTime
    ensures WithinAlertWindow(now, endTime)
  {
  }

  /** A deadline passed by more than 24 hours never qualifies. */
  lemma StaleDeadlineNeverQualifies(now: int, endTime: int)
    requires now - endTime > AlertWindowHours * Hour
    ensures !WithinAlertWindow(now, endTime)
  {
  }

  /** The boundary is inclusive: exactly 24 hours after the deadline still
      qualifies, one nanosecond later does not. */
  lemma WindowBoundaryIsInclusive(endTime: int)
    ensures WithinAlertWindow(endTime + AlertWindowHours * Hour, endTime)
    ensures !WithinAlertWindow(endTime + AlertWindowHours * Hour + 1, endTime)
  {
  }
}
