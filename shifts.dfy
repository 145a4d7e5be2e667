/**
 * The admin shift screen: adding a shift from the form, deleting one, the
 * calendar dots, and the list of upcoming shifts.
 */
module ShiftPlanning {
  import opened Types
  import opened Collections
  import opened Sorting
  import opened Timekeeping
  import opened Calendar

  /** The add-shift form; the date comes from the calendar selection. */
  datatype ShiftForm = ShiftForm(employeeId: string, locationId: string, startTime: string, endTime: string, notes: string)

  datatype ShiftError = MissingField | UnknownEmployeeOrLocation

  function EmployeeById(es: seq<Employee>, id: string): (r: Option<Employee>)
    ensures r.None? <==> forall i :: 0 <= i < |es| ==> es[i].id != id
    ensures r.Some? ==> exists i :: 0 <= i < |es| && es[i] == r.value && r.value.id == id &&
                          forall j :: 0 <= j < i ==> es[j].id != id
  {
    var p := (e: Employee) => e.id == id;
    Find(es, p)
  }

  function LocationById(ls: seq<Location>, id: string): (r: Option<Location>)
    ensures r.None? <==> forall i :: 0 <= i < |ls| ==> ls[i].id != id
    ensures r.Some? ==> exists i :: 0 <= i < |ls| && ls[i] == r.value && r.value.id == id &&
                          forall j :: 0 <= j < i ==> ls[j].id != id
  {
    var p := (l: Location) => l.id == id;
    Find(ls, p)
  }

  /**
   * `addShift`.  It refuses when no date is selected or a form field other
   * than the notes is empty, and when the employee or location id is not in
   * the lists.  Otherwise it appends one scheduled shift on the selected
   * date, carrying the names of the first employee and location with those
   * ids, the typed times and notes, created and updated `now`.
   */
  function AddShift(shifts: seq<Shift>, es: seq<Employee>, ls: seq<Location>, selected: Option<Day>, form: ShiftForm,
                    freshId: string, now: Millis): (r: Result<seq<Shift>, ShiftError>)
    ensures r == Err(MissingField) <==>
              selected.None? || form.employeeId == "" || form.locationId == "" || form.startTime == "" || form.endTime == ""
    ensures r == Err(UnknownEmployeeOrLocation) <==>
              (selected.Some? && form.employeeId != "" && form.locationId != "" && form.startTime != "" && form.endTime != "" &&
              ((forall i :: 0 <= i < |es| ==> es[i].id != form.employeeId) || (forall j :: 0 <= j < |ls| ==> ls[j].id != form.locationId)))
    ensures r.Ok? ==>
              && |r.value| == |shifts| + 1
              && r.value[..|shifts|] == shifts
              && var added := r.value[|shifts|];
              && added == Shift(freshId, form.employeeId, EmployeeById(es, form.employeeId).value.name,
                                form.locationId, LocationById(ls, form.locationId).value.name, selected.value,
                                form.startTime, form.endTime, Scheduled, Some(form.notes), now, now)
              && (exists i :: 0 <= i < |es| && es[i].id == form.employeeId && es[i].name == added.employeeName)
              && (exists j :: 0 <= j < |ls| && ls[j].id == form.locationId && ls[j].name == added.locationName)
  {
    if selected.None? || form.employeeId == "" || form.locationId == "" || form.startTime == "" || form.endTime == "" then
      Err(MissingField)
    else
      var employee := EmployeeById(es, form.employeeId);
      var location := LocationById(ls, form.locationId);
      if employee.None? || location.None? then Err(UnknownEmployeeOrLocation)
      else
        var shift := Shift(freshId, form.employeeId, employee.value.name, form.locationId, location.value.name,
                           selected.value, form.startTime, form.endTime, Scheduled, Some(form.notes), now, now);
        assert (shifts + [shift])[..|shifts|] == shifts;
        Ok(shifts + [shift])
  }

  /** A new shift shows up on its own date, after the shifts already there, and on no other date. */
  lemma AddedShiftOnItsDate(shifts: seq<Shift>, es: seq<Employee>, ls: seq<Location>, selected: Option<Day>, form: ShiftForm,
                            freshId: string, now: Millis, day: Day)
    ensures var r := AddShift(shifts, es, ls, selected, form, freshId, now);
            r.Ok? ==> ShiftsForDate(r.value, day) ==
                        ShiftsForDate(shifts, day) + (if day == selected.value then [r.value[|shifts|]] else [])
  {
    var r := AddShift(shifts, es, ls, selected, form, freshId, now);
    if r.Ok? {
      var added := r.value[|shifts|];
      assert r.value == shifts + [added];
      ShiftsForDateAppend(shifts, [added], day);
      ShiftsForDateSingle(added, day);
    }
  }

  /** `deleteShift`: the shifts whose id differs, in their order. */
  function DeleteShift(shifts: seq<Shift>, id: string): (r: seq<Shift>)
    ensures forall s :: s in r <==> s in shifts && s.id != id
    ensures multiset(r) <= multiset(shifts)
  {
    var keep := (s: Shift) => s.id != id;
    FilterMultiset(shifts, keep);
    Filter(shifts, keep)
  }

  /** Deleting works piece by piece, so the remaining shifts keep their order. */
  lemma DeleteShiftKeepsOrder(a: seq<Shift>, b: seq<Shift>, id: string)
    ensures DeleteShift(a + b, id) == DeleteShift(a, id) + DeleteShift(b, id)
  {
    var keep := (s: Shift) => s.id != id;
    FilterAppend(a, b, keep);
  }

  /** The colour of a calendar dot: success when completed, warning in progress, primary otherwise (missed too). */
  function DotColor(st: ShiftStatus): (c: Color)
    ensures c == Success <==> st == Completed
    ensures c == Warning <==> st == InProgress
    ensures c == Primary <==> st == Scheduled || st == Missed
  {
    match st
    case Completed => Success
    case InProgress => Warning
    case Scheduled => Primary
    case Missed => Primary
  }

  /** The two colourings differ only for missed shifts, which the dots show as scheduled. */
  lemma DotColorDiffersOnlyForMissed(st: ShiftStatus)
    ensures DotColor(st) == StatusColor(st) <==> st != Missed
    ensures st == Missed ==> DotColor(st) == Primary && StatusColor(st) == Danger
  {
  }

  /** The dots of one date: one per shift on it, in list order. */
  function DotsOn(shifts: seq<Shift>, day: Day): seq<Color> {
    if shifts == [] then []
    else
      var last := shifts[|shifts| - 1];
      DotsOn(shifts[..|shifts| - 1], day) + (if last.date == day then [DotColor(last.status)] else [])
  }

  /** The dot colours of a list of shifts, one per shift, in order. */
  function Colors(ss: seq<Shift>): (r: seq<Color>)
    ensures |r| == |ss|
  {
    seq(|ss|, i requires 0 <= i < |ss| => DotColor(ss[i].status))
  }

  lemma ColorsAppend(ss: seq<Shift>, s: Shift)
    ensures Colors(ss + [s]) == Colors(ss) + [DotColor(s.status)]
  {
    var l, r := Colors(ss + [s]), Colors(ss) + [DotColor(s.status)];
    forall i | 0 <= i < |l|
      ensures l[i] == r[i]
    {
      if i < |ss| {
        assert (ss + [s])[i] == ss[i];
      }
    }
  }

  lemma {:induction false} DotsAreColors(shifts: seq<Shift>, day: Day)
    ensures DotsOn(shifts, day) == Colors(ShiftsForDate(shifts, day))
    decreases |shifts|
  {
    if shifts != [] {
      var init, last := shifts[..|shifts| - 1], shifts[|shifts| - 1];
      DotsAreColors(init, day);
      assert shifts == init + [last];
      ExtendByOne(init, last, day);
      ShiftsForDateAppend(init, [last], day);
      ShiftsForDateSingle(last, day);
      if last.date == day {
        ColorsAppend(ShiftsForDate(init, day), last);
      }
    }
  }

  /** A date carries exactly one dot per shift on it, coloured by that shift's status. */
  lemma DotsMatchShifts(shifts: seq<Shift>, day: Day)
    ensures |DotsOn(shifts, day)| == |ShiftsForDate(shifts, day)|
    ensures forall k :: 0 <= k < |DotsOn(shifts, day)| ==> DotsOn(shifts, day)[k] == DotColor(ShiftsForDate(shifts, day)[k].status)
  {
    DotsAreColors(shifts, day);
  }

  /** One more shift adds a dot to its own date only, and makes that date one with a shift. */
  lemma ExtendByOne(shifts: seq<Shift>, s: Shift, day: Day)
    ensures DotsOn(shifts + [s], day) == DotsOn(shifts, day) + (if s.date == day then [DotColor(s.status)] else [])
    ensures HasShiftOn(shifts + [s], day) <==> HasShiftOn(shifts, day) || s.date == day
  {
    var both := shifts + [s];
    assert both[..|shifts|] == shifts;
    if HasShiftOn(both, day) && s.date != day {
      var k :| 0 <= k < |both| && both[k].date == day;
      assert shifts[k].date == day;
    }
    if HasShiftOn(shifts, day) {
      var k :| 0 <= k < |shifts| && shifts[k].date == day;
      assert both[k].date == day;
    }
    assert both[|shifts|] == s;
  }

  /** One calendar entry: its dots (none when only selected) and whether it is the selected date. */
  datatype DotMark = DotMark(dots: seq<Color>, selected: bool)

  predicate HasShiftOn(shifts: seq<Shift>, day: Day) {
    exists i :: 0 <= i < |shifts| && shifts[i].date == day
  }

  /**
   * `getMarkedDates`: an entry for every date with a shift, holding its
   * dots, and the selected date flagged as selected with its dots kept.
   */
  method MarkedDates(shifts: seq<Shift>, selected: Option<Day>) returns (marked: map<Day, DotMark>)
    ensures forall d :: d in marked <==> HasShiftOn(shifts, d) || selected == Some(d)
    ensures forall d :: d in marked ==> marked[d] == DotMark(DotsOn(shifts, d), selected == Some(d))
  {
    marked := map[];
    var i := 0;
    while i < |shifts|
      invariant 0 <= i <= |shifts|
      invariant forall d :: d in marked <==> HasShiftOn(shifts[..i], d)
      invariant forall d :: d in marked ==> marked[d] == DotMark(DotsOn(shifts[..i], d), false)
      invariant forall d :: d !in marked ==> DotsOn(shifts[..i], d) == []
    {
      var shift := shifts[i];
      assert shifts[..i + 1] == shifts[..i] + [shift];
      if shift.date !in marked {
        marked := marked[shift.date := DotMark([], false)];
      }
      var mark := marked[shift.date];
      marked := marked[shift.date := mark.(dots := mark.dots + [DotColor(shift.status)])];
      forall d
        ensures d in marked <==> HasShiftOn(shifts[..i + 1], d)
        ensures d in marked ==> marked[d] == DotMark(DotsOn(shifts[..i + 1], d), false)
        ensures d !in marked ==> DotsOn(shifts[..i + 1], d) == []
      {
        ExtendByOne(shifts[..i], shift, d);
      }
      i := i + 1;
    }
    assert shifts[..i] == shifts;
    if selected.Some? {
      var day := selected.value;
      var existing := if day in marked then marked[day] else DotMark([], false);
      marked := marked[day := existing.(selected := true)];
    }
  }

  function DateOf(s: Shift): int {
    s.date
  }

  /**
   * The "All Upcoming Shifts" list: the shifts whose date instant is at or
   * after `now`, in ascending date order.  A shift dated today counts only
   * when `now` is exactly midnight.
   */
  function UpcomingShifts(shifts: seq<Shift>, now: Millis): (r: seq<Shift>)
    ensures SortedAsc(r, DateOf)
    ensures forall s :: s in r <==> s in shifts && DateInstant(s.date) >= now
    ensures multiset(r) <= multiset(shifts)
  {
    var keep := (s: Shift) => DateInstant(s.date) >= now;
    var kept := Filter(shifts, keep);
    FilterMultiset(shifts, keep);
    SortAscSorted(kept, DateOf);
    SortAscMembers(kept, DateOf);
    SortAsc(kept, DateOf)
  }

  /** Today's shifts are missing from the list as soon as the day has begun. */
  lemma TodayNotUpcoming(s: Shift, now: Millis)
    requires s.date == DayOf(now) && now % DAY_MS != 0
    ensures s !in UpcomingShifts([s], now)
  {
  }

  /** The list the screen evidently intends: every shift from today on, as the employee schedule lists them. */
  function UpcomingFromToday(shifts: seq<Shift>, now: Millis): (r: seq<Shift>)
    ensures SortedAsc(r, DateOf)
    ensures forall s :: s in r <==> s in shifts && s.date >= DayOf(now)
    ensures multiset(r) <= multiset(shifts)
  {
    var keep := (s: Shift) => DateInstant(s.date) >= Midnight(now);
    var kept := Filter(shifts, keep);
    FilterMultiset(shifts, keep);
    SortAscSorted(kept, DateOf);
    forall s: Shift
      ensures keep(s) <==> s.date >= DayOf(now)
    {
      OnOrAfterMidnight(s.date, now);
    }
    SortAscMembers(kept, DateOf);
    SortAsc(kept, DateOf)
  }

  /** The intended list keeps everything the written one does, and differs only by today's shifts. */
  lemma UpcomingDiffersOnlyByToday(shifts: seq<Shift>, now: Millis)
    ensures forall s :: s in UpcomingShifts(shifts, now) ==> s in UpcomingFromToday(shifts, now)
    ensures forall s :: s in UpcomingFromToday(shifts, now) && s !in UpcomingShifts(shifts, now) ==> s.date == DayOf(now)
    ensures now % DAY_MS == 0 ==> forall s :: s in UpcomingShifts(shifts, now) <==> s in UpcomingFromToday(shifts, now)
  {
    forall s: Shift
      ensures DateInstant(s.date) >= now ==> s.date >= DayOf(now)
      ensures s.date > DayOf(now) ==> DateInstant(s.date) >= now
      ensures now % DAY_MS == 0 ==> (DateInstant(s.date) >= now <==> s.date >= DayOf(now))
    {
      OnOrAfterMidnight(s.date, now);
      if s.date > DayOf(now) {
        assert DateInstant(s.date) >= DateInstant(DayOf(now) + 1);
      }
    }
  }
}
