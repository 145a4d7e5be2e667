/**
 * Worked time as the screens compute it: the duration of one check-in, the
 * reporting periods (trailing 7 and 30 days), and the `{h}h {m}m` display of
 * an amount of hours.  Durations are integer milliseconds, the difference of
 * two `getTime()` values; the screens divide by 3 600 000 only to show hours.
 */
module Timekeeping {
  import opened Types
  import opened Text
  import opened Collections

  const MINUTE_MS: int := 60 * 1000
  const HOUR_MS: int := 60 * MINUTE_MS
  const DAY_MS: int := 24 * HOUR_MS

  /** The fixed standard working time per check-in used for overtime. */
  const STANDARD_SHIFT_MS: int := 8 * HOUR_MS

  /** Time worked on one check-in: check-out minus check-in, and 0 while it is still open. */
  function Duration(c: CheckIn): (d: int)
    ensures c.checkOutTime.None? ==> d == 0
    ensures c.checkOutTime.Some? ==> c.checkInTime + d == c.checkOutTime.value
  {
    match c.checkOutTime
    case None => 0
    case Some(out) => out - c.checkInTime
  }

  predicate IsClosed(c: CheckIn) {
    c.checkOutTime.Some?
  }

  /** The check-ins of one employee, matched by employee id, in list order. */
  function CheckInsOf(cs: seq<CheckIn>, employeeId: string): (r: seq<CheckIn>)
    ensures forall c :: c in r <==> c in cs && c.employeeId == employeeId
    ensures multiset(r) <= multiset(cs)
  {
    var p := (c: CheckIn) => c.employeeId == employeeId;
    FilterMultiset(cs, p);
    Filter(cs, p)
  }

  /** The sum of the durations; open check-ins add nothing. */
  function TotalDuration(cs: seq<CheckIn>): int {
    SumBy(cs, Duration)
  }

  /** Open check-ins never change a total: it is the total of the closed ones alone. */
  lemma {:induction false} TotalIgnoresOpen(cs: seq<CheckIn>)
    ensures TotalDuration(cs) == TotalDuration(Filter(cs, IsClosed))
    decreases |cs|
  {
    if cs != [] {
      TotalIgnoresOpen(cs[..|cs| - 1]);
      var last := cs[|cs| - 1];
      if IsClosed(last) {
        SumByAppend(Filter(cs[..|cs| - 1], IsClosed), [last], Duration);
        assert [last][..0] == [];
      } else {
        assert Filter(cs, IsClosed) == Filter(cs[..|cs| - 1], IsClosed);
        assert Duration(last) == 0;
      }
    }
  }

  /** When no check-out precedes its check-in, totals are never negative. */
  lemma TotalNonNegative(cs: seq<CheckIn>)
    requires forall c :: c in cs && IsClosed(c) ==> c.checkOutTime.value >= c.checkInTime
    ensures TotalDuration(cs) >= 0
  {
    SumByNonNegative(cs, Duration);
  }

  /** The period picker of the reports and history screens. */
  datatype Period = Week | Month | AllTime

  /** The period as the screens name it (and as a report's `date` carries it). */
  function PeriodName(p: Period): string {
    match p
    case Week => "week"
    case Month => "month"
    case AllTime => "all"
  }

  /** The earliest check-in time a period admits, counted back from `now`. */
  function Cutoff(p: Period, now: Millis): Option<Millis> {
    match p
    case Week => Some(now - 7 * DAY_MS)
    case Month => Some(now - 30 * DAY_MS)
    case AllTime => None
  }

  predicate InPeriod(c: CheckIn, p: Period, now: Millis) {
    match Cutoff(p, now)
    case None => true
    case Some(start) => c.checkInTime >= start
  }

  /**
   * `getFilteredCheckIns`: the whole list for "all", otherwise exactly the
   * check-ins whose check-in time is at or after the cutoff; the check-out
   * time plays no part.
   */
  function FilterByPeriod(cs: seq<CheckIn>, p: Period, now: Millis): (r: seq<CheckIn>)
    ensures p == AllTime ==> r == cs
    ensures p == Week ==> forall c :: c in r <==> c in cs && c.checkInTime >= now - 7 * DAY_MS
    ensures p == Month ==> forall c :: c in r <==> c in cs && c.checkInTime >= now - 30 * DAY_MS
    ensures multiset(r) <= multiset(cs)
  {
    if p == AllTime then cs
    else
      var keep := (c: CheckIn) => InPeriod(c, p, now);
      FilterMultiset(cs, keep);
      Filter(cs, keep)
  }

  /** Whole hours and minutes, as the `{h}h {m}m` label shows them. */
  datatype HoursMinutes = HoursMinutes(hours: int, minutes: int)

  /** `${h}h ${m}m` */
  function Render(hm: HoursMinutes): string {
    IntToString(hm.hours) + "h " + IntToString(hm.minutes) + "m"
  }

  /** The number of whole minutes nearest to `ms`, halves rounded up (`Math.round`). */
  function NearestMinutes(ms: int): int {
    (ms + MINUTE_MS / 2) / MINUTE_MS
  }

  /**
   * `formatHours` / `formatDuration` as written: whole hours are the floor of
   * the hours, minutes are the rounded remainder times 60 — with no carry,
   * so a remainder of 59.5 minutes or more shows as 60 minutes.
   */
  function SplitHours(ms: int): (r: HoursMinutes)
    ensures r.hours * HOUR_MS <= ms < (r.hours + 1) * HOUR_MS
    ensures 0 <= r.minutes <= 60
    ensures ms - r.hours * HOUR_MS - MINUTE_MS / 2 < r.minutes * MINUTE_MS <= ms - r.hours * HOUR_MS + MINUTE_MS / 2
    ensures r.hours * 60 + r.minutes == NearestMinutes(ms)
  {
    var whole := ms / HOUR_MS;
    var rest := ms % HOUR_MS;
    HoursMinutes(whole, (rest + MINUTE_MS / 2) / MINUTE_MS)
  }

  function FormatHours(ms: int): string {
    Render(SplitHours(ms))
  }

  /** 59 minutes 30 seconds is shown as "0h 60m". */
  lemma FormatHoursShowsSixtyMinutes()
    ensures SplitHours(59 * MINUTE_MS + 30 * 1000) == HoursMinutes(0, 60)
    ensures FormatHours(59 * MINUTE_MS + 30 * 1000) == "0h 60m"
  {
    assert IntToString(60) == NatToString(6) + [DigitChar(0)];
  }

  /**
   * The display the formatter evidently intends: the same nearest number of
   * minutes, with 60 minutes carried into the hours.
   */
  function SplitHoursCarried(ms: int): (r: HoursMinutes)
    ensures 0 <= r.minutes < 60
    ensures r.hours * 60 + r.minutes == NearestMinutes(ms)
    ensures SplitHours(ms).minutes < 60 ==> r == SplitHours(ms)
    ensures SplitHours(ms).minutes == 60 ==> r == HoursMinutes(SplitHours(ms).hours + 1, 0)
  {
    var total := NearestMinutes(ms);
    HoursMinutes(total / 60, total % 60)
  }

  function FormatHoursCarried(ms: int): string {
    Render(SplitHoursCarried(ms))
  }
}
