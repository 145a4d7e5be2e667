/**
 * The employee schedule screen: the user's shifts, their calendar marks,
 * the next five shifts, and the hours of completed shifts this week.
 */
module Schedule {
  import opened Types
  import opened Text
  import opened Collections
  import opened Sorting
  import opened Timekeeping
  import opened Calendar

  /** The last shift in list order dated `day`, or none. */
  function LastOn(shifts: seq<Shift>, day: Day): (r: Option<Shift>)
    ensures r.None? <==> forall s :: s in shifts ==> s.date != day
    ensures r.Some? ==> r.value in shifts && r.value.date == day
    ensures r.Some? ==> exists i :: 0 <= i < |shifts| && shifts[i] == r.value &&
                                    forall j :: i < j < |shifts| ==> shifts[j].date != day
  {
    if shifts == [] then None
    else if shifts[|shifts| - 1].date == day then Some(shifts[|shifts| - 1])
    else
      var before := shifts[..|shifts| - 1];
      assert shifts == before + [shifts[|shifts| - 1]];
      LastOn(before, day)
  }

  /** A shift added at the end becomes the last of its date and leaves the other dates alone. */
  lemma LastOnAppend(shifts: seq<Shift>, s: Shift, day: Day)
    ensures LastOn(shifts + [s], day) == if s.date == day then Some(s) else LastOn(shifts, day)
  {
    assert (shifts + [s])[..|shifts|] == shifts;
  }

  /**
   * One calendar entry: marked with a dot of some colour when a shift is on
   * that date, and flagged when it is the selected date.
   */
  datatype DayMark = DayMark(marked: bool, dotColor: Option<Color>, selected: bool)

  /** The entry a date gets from its shifts alone: the colour of its last shift. */
  function MarkOf(shifts: seq<Shift>, day: Day): DayMark {
    var last := LastOn(shifts, day);
    if last.Some? then DayMark(true, Some(StatusColor(last.value.status)), false) else DayMark(false, None, false)
  }

  /**
   * `getMarkedDates`: each shift overwrites its date's entry, so a date
   * shows the colour of its last shift; the selected date keeps its entry
   * and is flagged.
   */
  method MarkedDates(shifts: seq<Shift>, selected: Option<Day>) returns (marked: map<Day, DayMark>)
    ensures forall d :: d in marked <==> (exists i :: 0 <= i < |shifts| && shifts[i].date == d) || selected == Some(d)
    ensures forall d :: d in marked ==> marked[d] == MarkOf(shifts, d).(selected := selected == Some(d))
  {
    marked := map[];
    var i := 0;
    while i < |shifts|
      invariant 0 <= i <= |shifts|
      invariant forall d :: d in marked <==> exists k :: 0 <= k < i && shifts[k].date == d
      invariant forall d :: d in marked ==> marked[d] == MarkOf(shifts[..i], d)
    {
      var shift := shifts[i];
      assert shifts[..i + 1] == shifts[..i] + [shift];
      marked := marked[shift.date := DayMark(true, Some(StatusColor(shift.status)), false)];
      forall d | d in marked
        ensures marked[d] == MarkOf(shifts[..i + 1], d)
      {
        LastOnAppend(shifts[..i], shift, d);
      }
      i := i + 1;
    }
    assert shifts[..i] == shifts;
    forall d | d !in marked
      ensures MarkOf(shifts, d) == DayMark(false, None, false)
    {
    }
    if selected.Some? {
      var day := selected.value;
      var existing := if day in marked then marked[day] else DayMark(false, None, false);
      marked := marked[day := existing.(selected := true)];
    }
  }

  function DateOf(s: Shift): int {
    s.date
  }

  /** The shifts dated today or later: the date's midnight is not before the start of today. */
  function FromToday(shifts: seq<Shift>, now: Millis): (r: seq<Shift>)
    ensures forall s :: s in r <==> s in shifts && s.date >= DayOf(now)
  {
    var keep := (s: Shift) => DateInstant(s.date) >= Midnight(now);
    forall s | s in shifts
      ensures keep(s) <==> s.date >= DayOf(now)
    {
      OnOrAfterMidnight(s.date, now);
    }
    Filter(shifts, keep)
  }

  /**
   * `getUpcomingShifts`: the shifts dated today or later, in ascending date
   * order, at most five.
   */
  function UpcomingShifts(shifts: seq<Shift>, now: Millis): (r: seq<Shift>)
    ensures |r| <= 5
    ensures |r| == if |FromToday(shifts, now)| < 5 then |FromToday(shifts, now)| else 5
    ensures multiset(r) <= multiset(FromToday(shifts, now))
    ensures SortedAsc(r, DateOf)
    ensures forall s :: s in r ==> s in shifts && s.date >= DayOf(now)
  {
    var kept := FromToday(shifts, now);
    var sorted := SortAsc(kept, DateOf);
    assert sorted == Take(sorted, 5) + sorted[|Take(sorted, 5)|..];
    SortAscSorted(kept, DateOf);
    SortAscMembers(kept, DateOf);
    TakeAscKeeps(sorted, 5);
    Take(sorted, 5)
  }

  lemma TakeAscKeeps(s: seq<Shift>, n: nat)
    ensures SortedAsc(s, DateOf) ==> SortedAsc(Take(s, n), DateOf)
    ensures forall x :: x in Take(s, n) ==> x in s
  {
    var r := Take(s, n);
    assert forall i :: 0 <= i < |r| ==> r[i] == s[i];
  }

  /**
   * The five listed are the earliest: no shift of today or later that was
   * left out is dated before one that was kept.
   */
  lemma UpcomingAreEarliest(shifts: seq<Shift>, now: Millis)
    ensures forall x, y :: x in multiset(FromToday(shifts, now)) - multiset(UpcomingShifts(shifts, now)) && y in UpcomingShifts(shifts, now) ==> x.date >= y.date
  {
    var kept := FromToday(shifts, now);
    var upcoming := UpcomingShifts(shifts, now);
    assert upcoming == Take(SortAsc(kept, DateOf), 5);
    BottomOfSorted(kept, DateOf, 5);
    forall x: Shift, y: Shift | x in multiset(kept) - multiset(upcoming) && y in upcoming
      ensures x.date >= y.date
    {
      assert DateOf(x) >= DateOf(y);
    }
  }

  /** The length of a shift in minutes: end minus start on the same day, none when a time cannot be read. */
  function ShiftMinutes(s: Shift): (r: Option<int>)
    ensures r.Some? <==> ParseClock(s.startTime).Some? && ParseClock(s.endTime).Some?
    ensures r.Some? ==> -24 * 60 < r.value < 24 * 60
    ensures r.Some? ==> (r.value < 0 <==> ParseClock(s.endTime).value < ParseClock(s.startTime).value)
    ensures r.Some? ==> (r.value == 0 <==> ParseClock(s.endTime) == ParseClock(s.startTime))
  {
    var start, end := ParseClock(s.startTime), ParseClock(s.endTime);
    if start.Some? && end.Some? then Some(end.value - start.value) else None
  }

  /** A shift written with HH:MM times lasts from its start minute to its end minute. */
  lemma ShiftMinutesOfClocks(s: Shift, start: nat, end: nat)
    requires start < 24 * 60 && end < 24 * 60
    requires s.startTime == ClockString(start) && s.endTime == ClockString(end)
    ensures ShiftMinutes(s) == Some(end - start)
  {
    ParseClockString(start);
    ParseClockString(end);
  }

  /** A shift that ends before it starts (one over midnight) counts negative. */
  lemma OvernightShiftCountsNegative(s: Shift)
    requires s.startTime == "22:00" && s.endTime == "06:00"
    ensures ShiftMinutes(s) == Some(-960)
  {
    ParseClockString(22 * 60);
    ParseClockString(6 * 60);
    assert ClockString(22 * 60) == "22:00";
    assert ClockString(6 * 60) == "06:00";
  }

  /** The sum of the shift lengths; an unreadable time makes the whole sum unreadable (NaN). */
  function SumMinutes(shifts: seq<Shift>): (r: Option<int>)
    ensures r.Some? <==> forall i :: 0 <= i < |shifts| ==> ShiftMinutes(shifts[i]).Some?
  {
    if shifts == [] then Some(0)
    else
      var before := SumMinutes(shifts[..|shifts| - 1]);
      var last := ShiftMinutes(shifts[|shifts| - 1]);
      assert forall i :: 0 <= i < |shifts| - 1 ==> shifts[..|shifts| - 1][i] == shifts[i];
      if before.Some? && last.Some? then Some(before.value + last.value) else None
  }

  /** Adding two sums the way `reduce` does: unreadable (NaN) as soon as either is. */
  function AddMinutes(a: Option<int>, b: Option<int>): Option<int> {
    if a.Some? && b.Some? then Some(a.value + b.value) else None
  }

  /** A single shift sums to its own length. */
  lemma SumMinutesSingle(s: Shift)
    ensures SumMinutes([s]) == ShiftMinutes(s)
  {
    assert [s][..0] == [];
  }

  /** The sum of a concatenation adds the sums of the parts. */
  lemma {:induction false} SumMinutesAppend(a: seq<Shift>, b: seq<Shift>)
    ensures SumMinutes(a + b) == AddMinutes(SumMinutes(a), SumMinutes(b))
    decreases |b|
  {
    if b == [] {
      assert a + b == a;
    } else {
      var init := b[..|b| - 1];
      assert (a + b)[..|a + b| - 1] == a + init;
      assert (a + b)[|a + b| - 1] == b[|b| - 1];
      SumMinutesAppend(a, init);
    }
  }

  /**
   * The week bounds as `getTotalHoursThisWeek` computes them: `setDate` moves
   * `today` back to Sunday keeping the time of day, and the end is taken
   * from that already moved date, six days on.
   */
  function WeekBoundsAsWritten(now: Millis): (bounds: (Millis, Millis))
    ensures bounds.0 == now - Weekday(DayOf(now)) * DAY_MS
    ensures bounds.1 == bounds.0 + 6 * DAY_MS
    ensures bounds.0 % DAY_MS == now % DAY_MS
  {
    var start := now - Weekday(DayOf(now)) * DAY_MS;
    WeekdayOfSunday(now);
    var end := start - Weekday(DayOf(start)) * DAY_MS + 6 * DAY_MS;
    (start, end)
  }

  /** Going back by the weekday lands on a Sunday. */
  lemma WeekdayOfSunday(now: Millis)
    ensures Weekday(DayOf(now - Weekday(DayOf(now)) * DAY_MS)) == 0
  {
    var w := Weekday(DayOf(now));
    assert DayOf(now - w * DAY_MS) == DayOf(now) - w;
  }

  predicate CountedAsWritten(s: Shift, now: Millis) {
    var (start, end) := WeekBoundsAsWritten(now);
    DateInstant(s.date) >= start && DateInstant(s.date) <= end && s.status == Completed
  }

  /** `getTotalHoursThisWeek` as written, in minutes. */
  function WeekMinutesAsWritten(shifts: seq<Shift>, now: Millis): Option<int> {
    var counted := (s: Shift) => CountedAsWritten(s, now);
    SumMinutes(Filter(shifts, counted))
  }

  /** The first day (Sunday) of the week `now` falls in. */
  function WeekStart(now: Millis): Day {
    DayOf(now) - Weekday(DayOf(now))
  }

  /** What the screen evidently means: completed shifts dated Sunday through Saturday of this week. */
  predicate CountedThisWeek(s: Shift, now: Millis) {
    WeekStart(now) <= s.date <= WeekStart(now) + 6 && s.status == Completed
  }

  function WeekMinutes(shifts: seq<Shift>, now: Millis): (r: Option<int>)
    ensures r.Some? <==> forall s :: s in shifts && CountedThisWeek(s, now) ==> ShiftMinutes(s).Some?
  {
    var counted := (s: Shift) => CountedThisWeek(s, now);
    var kept := Filter(shifts, counted);
    assert forall i :: 0 <= i < |kept| ==> kept[i] in kept;
    SumMinutes(kept)
  }

  /** A single shift adds its length to the week when it is counted, and nothing otherwise. */
  lemma WeekMinutesSingle(s: Shift, now: Millis)
    ensures WeekMinutes([s], now) == if CountedThisWeek(s, now) then ShiftMinutes(s) else Some(0)
  {
    var counted := (x: Shift) => CountedThisWeek(x, now);
    FilterSingle(s, counted);
    SumMinutesSingle(s);
  }

  /** The week's sum over a concatenation adds the sums over the parts. */
  lemma WeekMinutesAppend(a: seq<Shift>, b: seq<Shift>, now: Millis)
    ensures WeekMinutes(a + b, now) == AddMinutes(WeekMinutes(a, now), WeekMinutes(b, now))
  {
    var counted := (x: Shift) => CountedThisWeek(x, now);
    FilterAppend(a, b, counted);
    SumMinutesAppend(Filter(a, counted), Filter(b, counted));
  }

  /** Whether the written bounds let a shift through: always at midnight, otherwise unless it is dated on the week's first day. */
  predicate PassesWrittenStart(s: Shift, now: Millis) {
    now % DAY_MS == 0 || s.date != WeekStart(now)
  }

  /**
   * The written sum is the intended sum over the shifts not dated on the
   * week's first day (all of them when `now` is midnight).
   */
  lemma WeekMinutesAsWrittenSkipsFirstDay(shifts: seq<Shift>, now: Millis)
    ensures WeekMinutesAsWritten(shifts, now) == WeekMinutes(Filter(shifts, (s: Shift) => PassesWrittenStart(s, now)), now)
  {
    var passes := (s: Shift) => PassesWrittenStart(s, now);
    var counted := (s: Shift) => CountedThisWeek(s, now);
    var written := (s: Shift) => CountedAsWritten(s, now);
    forall s | s in shifts
      ensures written(s) <==> passes(s) && counted(s)
    {
      WeekBoundsDropFirstDay(s, now);
    }
    FilterOfFilter(shifts, passes, counted, written);
  }

  /**
   * The written bounds drop exactly the shifts of the week's first day,
   * unless `now` is midnight; every other day of the week is counted.
   */
  lemma WeekBoundsDropFirstDay(s: Shift, now: Millis)
    ensures CountedAsWritten(s, now) ==> CountedThisWeek(s, now)
    ensures CountedThisWeek(s, now) && s.date != WeekStart(now) ==> CountedAsWritten(s, now)
    ensures CountedThisWeek(s, now) && s.date == WeekStart(now) ==> (CountedAsWritten(s, now) <==> now % DAY_MS == 0)
  {
    var (start, end) := WeekBoundsAsWritten(now);
    var t := now % DAY_MS;
    var w := WeekStart(now);
    assert start == w * DAY_MS + t by {
      assert now == DayOf(now) * DAY_MS + t;
    }
    assert end == (w + 6) * DAY_MS + t;
    assert 0 <= t < DAY_MS;
    if s.date < w {
      assert DateInstant(s.date) <= (w - 1) * DAY_MS;
    } else if s.date > w + 6 {
      assert DateInstant(s.date) >= (w + 7) * DAY_MS;
    } else if s.date > w {
      assert DateInstant(s.date) >= (w + 1) * DAY_MS;
      assert DateInstant(s.date) <= (w + 6) * DAY_MS;
    }
  }

  /**
   * Sunday 7 January 2024 at noon UTC (day 19729), with one completed
   * 09:00-17:00 shift that same Sunday: the written computation reports no
   * hours, the intended one eight.
   */
  lemma SundayShiftDropped(s: Shift)
    requires s.date == 19729 && s.status == Completed && s.startTime == "09:00" && s.endTime == "17:00"
    ensures WeekMinutesAsWritten([s], 19729 * DAY_MS + 12 * HOUR_MS) == Some(0)
    ensures WeekMinutes([s], 19729 * DAY_MS + 12 * HOUR_MS) == Some(480)
  {
    var now := 19729 * DAY_MS + 12 * HOUR_MS;
    assert DayOf(now) == 19729 && Weekday(19729) == 0;
    WeekBoundsDropFirstDay(s, now);
    ParseClockString(9 * 60);
    ParseClockString(17 * 60);
    assert ClockString(9 * 60) == "09:00";
    assert ClockString(17 * 60) == "17:00";
    assert [s][..0] == [];
  }
}
