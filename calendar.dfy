/**
 * What the schedule screens share: the shifts of one user, the shifts of
 * one date, the status colours, and the calendar arithmetic on day numbers.
 *
 * A shift's `YYYY-MM-DD` date parsed by `new Date` is midnight UTC of that
 * day, so day `d` is the instant `d * DAY_MS`; the device's time zone is
 * taken to be UTC.
 */
module Calendar {
  import opened Types
  import opened Collections
  import opened Timekeeping

  /** The user's shifts, matched by id or by name, in list order. */
  function ShiftsOf(shifts: seq<Shift>, u: User): (r: seq<Shift>)
    ensures forall s :: s in r <==> s in shifts && ShiftBelongsTo(s, u)
    ensures multiset(r) <= multiset(shifts)
  {
    var p := (s: Shift) => ShiftBelongsTo(s, u);
    FilterMultiset(shifts, p);
    Filter(shifts, p)
  }

  /** `getShiftsForDate`: the shifts dated `day`, in list order. */
  function ShiftsForDate(shifts: seq<Shift>, day: Day): (r: seq<Shift>)
    ensures forall s :: s in r <==> s in shifts && s.date == day
    ensures multiset(r) <= multiset(shifts)
  {
    var p := (s: Shift) => s.date == day;
    FilterMultiset(shifts, p);
    Filter(shifts, p)
  }

  /** Adding shifts at the end only adds to the lists of their own dates. */
  lemma ShiftsForDateAppend(a: seq<Shift>, b: seq<Shift>, day: Day)
    ensures ShiftsForDate(a + b, day) == ShiftsForDate(a, day) + ShiftsForDate(b, day)
  {
    var p := (s: Shift) => s.date == day;
    FilterAppend(a, b, p);
  }

  lemma ShiftsForDateSingle(s: Shift, day: Day)
    ensures ShiftsForDate([s], day) == if s.date == day then [s] else []
  {
    assert [s][..0] == [];
  }

  /** `getStatusColor` of both schedule screens. */
  function StatusColor(st: ShiftStatus): (c: Color)
    ensures c == Success <==> st == Completed
    ensures c == Warning <==> st == InProgress
    ensures c == Danger <==> st == Missed
    ensures c == Primary <==> st == Scheduled
  {
    match st
    case Completed => Success
    case InProgress => Warning
    case Missed => Danger
    case Scheduled => Primary
  }

  /** The instant a shift's date stands for. */
  function DateInstant(day: Day): Millis {
    day * DAY_MS
  }

  /** The day of the week of a day number, 0 for Sunday (day 0, 1 January 1970, was a Thursday). */
  function Weekday(day: Day): (w: nat)
    ensures w < 7
  {
    (day + 4) % 7
  }

  /** The day an instant falls on. */
  function DayOf(t: Millis): Day {
    t / DAY_MS
  }

  /** `setHours(0, 0, 0, 0)`: the start of the day `t` falls on. */
  function Midnight(t: Millis): (m: Millis)
    ensures m <= t < m + DAY_MS
    ensures m == DateInstant(DayOf(t))
  {
    t - t % DAY_MS
  }

  /** A date is on or after the start of today exactly when its day number is at least today's. */
  lemma OnOrAfterMidnight(day: Day, now: Millis)
    ensures DateInstant(day) >= Midnight(now) <==> day >= DayOf(now)
  {
    if day < DayOf(now) {
      assert DateInstant(day) <= DateInstant(DayOf(now) - 1);
    }
  }
}
