/**
 * The admin reports screen: one report per employee and location with work
 * in the selected period, sorted by hours; the totals across the reports;
 * the five top performers; and the per-location breakdown.
 *
 * Hours are integer milliseconds (`workedMs`); the screen's division by
 * 3 600 000 is only for display.
 */
module Reports {
  import opened Types
  import opened Collections
  import opened Sorting
  import opened Timekeeping
  import opened Grouping

  function Min(a: int, b: int): int {
    if a <= b then a else b
  }

  function Max(a: int, b: int): int {
    if a >= b then a else b
  }

  /**
   * The overtime rule: anything beyond 8 hours per check-in, as
   * `max(0, total - min(total, 8 * count))`, reported only when positive.
   */
  function Overtime(workedMs: int, count: nat): (r: Option<int>)
    ensures r.Some? <==> workedMs > count * STANDARD_SHIFT_MS
    ensures r.Some? ==> r.value == workedMs - count * STANDARD_SHIFT_MS && r.value > 0
  {
    var regular := Min(workedMs, STANDARD_SHIFT_MS * count);
    var overtime := Max(0, workedMs - regular);
    if overtime > 0 then Some(overtime) else None
  }

  predicate Matches(c: CheckIn, e: Employee, l: Location) {
    c.employeeId == e.id && c.locationId == l.id
  }

  /** The check-ins of employee `e` at location `l`, in list order. */
  function Matching(cs: seq<CheckIn>, e: Employee, l: Location): (r: seq<CheckIn>)
    ensures forall c :: c in r <==> c in cs && Matches(c, e, l)
  {
    var p := (c: CheckIn) => Matches(c, e, l);
    Filter(cs, p)
  }

  /**
   * The report of `e` at `l`: their names and ids, the period name, all
   * their matching check-ins, their worked time and the overtime.
   */
  function ReportFor(cs: seq<CheckIn>, e: Employee, l: Location, p: Period): TimeReport {
    var mine := Matching(cs, e, l);
    var worked := TotalDuration(mine);
    TimeReport(e.id, e.name, l.id, l.name, PeriodName(p), worked, Overtime(worked, |mine|), mine)
  }

  /**
   * What a report holds: the matching check-ins of the period (open ones
   * included), a worked time counted over the closed ones alone, and
   * overtime exactly when that time exceeds 8 hours per check-in.
   */
  lemma ReportContents(cs: seq<CheckIn>, e: Employee, l: Location, p: Period)
    ensures var r := ReportFor(cs, e, l, p);
            && r.employeeId == e.id && r.employeeName == e.name && r.locationId == l.id && r.locationName == l.name
            && r.date == PeriodName(p)
            && (forall c :: c in r.checkIns <==> c in cs && Matches(c, e, l))
            && r.workedMs == TotalDuration(Filter(r.checkIns, IsClosed))
            && (r.overtimeMs.Some? <==> r.workedMs > |r.checkIns| * STANDARD_SHIFT_MS)
            && (r.overtimeMs.Some? ==> r.overtimeMs.value == r.workedMs - |r.checkIns| * STANDARD_SHIFT_MS)
  {
    TotalIgnoresOpen(Matching(cs, e, l));
  }

  /** The reports of one employee, one per location with matching check-ins, in location order. */
  function RowReports(cs: seq<CheckIn>, e: Employee, ls: seq<Location>, p: Period): seq<TimeReport> {
    if ls == [] then []
    else
      var l := ls[|ls| - 1];
      RowReports(cs, e, ls[..|ls| - 1], p) + (if Matching(cs, e, l) != [] then [ReportFor(cs, e, l, p)] else [])
  }

  /** The reports in the order the nested loops push them: employee by employee, location by location. */
  function PushedReports(cs: seq<CheckIn>, es: seq<Employee>, ls: seq<Location>, p: Period): seq<TimeReport> {
    if es == [] then [] else PushedReports(cs, es[..|es| - 1], ls, p) + RowReports(cs, es[|es| - 1], ls, p)
  }

  lemma {:induction false} RowReportsMembership(cs: seq<CheckIn>, e: Employee, ls: seq<Location>, p: Period)
    ensures forall r :: r in RowReports(cs, e, ls, p) <==>
      exists j :: 0 <= j < |ls| && Matching(cs, e, ls[j]) != [] && r == ReportFor(cs, e, ls[j], p)
    decreases |ls|
  {
    if ls != [] {
      var init := ls[..|ls| - 1];
      RowReportsMembership(cs, e, init, p);
      forall r | r in RowReports(cs, e, init, p)
        ensures exists j :: 0 <= j < |ls| && Matching(cs, e, ls[j]) != [] && r == ReportFor(cs, e, ls[j], p)
      {
        var j :| 0 <= j < |init| && Matching(cs, e, init[j]) != [] && r == ReportFor(cs, e, init[j], p);
        assert ls[j] == init[j];
      }
      forall j | 0 <= j < |ls| && Matching(cs, e, ls[j]) != []
        ensures ReportFor(cs, e, ls[j], p) in RowReports(cs, e, ls, p)
      {
        if j < |init| {
          assert ls[j] == init[j];
        }
      }
    }
  }

  /**
   * A report is pushed exactly for the employee/location pairs of the two
   * lists that have at least one matching check-in.
   */
  lemma {:induction false} PushedReportsMembership(cs: seq<CheckIn>, es: seq<Employee>, ls: seq<Location>, p: Period)
    ensures forall r :: r in PushedReports(cs, es, ls, p) <==>
      exists i, j :: 0 <= i < |es| && 0 <= j < |ls| && Matching(cs, es[i], ls[j]) != [] && r == ReportFor(cs, es[i], ls[j], p)
    decreases |es|
  {
    if es != [] {
      var init, e := es[..|es| - 1], es[|es| - 1];
      PushedReportsMembership(cs, init, ls, p);
      RowReportsMembership(cs, e, ls, p);
      forall r | r in PushedReports(cs, init, ls, p)
        ensures exists i, j :: 0 <= i < |es| && 0 <= j < |ls| && Matching(cs, es[i], ls[j]) != [] && r == ReportFor(cs, es[i], ls[j], p)
      {
        var i, j :| 0 <= i < |init| && 0 <= j < |ls| && Matching(cs, init[i], ls[j]) != [] && r == ReportFor(cs, init[i], ls[j], p);
        assert es[i] == init[i];
        assert 0 <= i < |es| && Matching(cs, es[i], ls[j]) != [] && r == ReportFor(cs, es[i], ls[j], p);
      }
      forall r | r in RowReports(cs, e, ls, p)
        ensures exists i, j :: 0 <= i < |es| && 0 <= j < |ls| && Matching(cs, es[i], ls[j]) != [] && r == ReportFor(cs, es[i], ls[j], p)
      {
        var j :| 0 <= j < |ls| && Matching(cs, e, ls[j]) != [] && r == ReportFor(cs, e, ls[j], p);
        assert es[|es| - 1] == e;
        assert 0 <= |es| - 1 < |es| && Matching(cs, es[|es| - 1], ls[j]) != [] && r == ReportFor(cs, es[|es| - 1], ls[j], p);
      }
      forall i, j | 0 <= i < |es| && 0 <= j < |ls| && Matching(cs, es[i], ls[j]) != []
        ensures ReportFor(cs, es[i], ls[j], p) in PushedReports(cs, es, ls, p)
      {
        if i < |init| {
          assert es[i] == init[i];
        }
      }
    }
  }

  function WorkedMs(r: TimeReport): int {
    r.workedMs
  }

  /** The inner `locations.forEach`: pushes the reports of one employee, location by location. */
  method PushRowReports(filtered: seq<CheckIn>, employee: Employee, locations: seq<Location>, p: Period, pushed: seq<TimeReport>)
    returns (after: seq<TimeReport>)
    ensures after == pushed + RowReports(filtered, employee, locations, p)
  {
    after := pushed;
    var j := 0;
    while j < |locations|
      invariant 0 <= j <= |locations|
      invariant after == pushed + RowReports(filtered, employee, locations[..j], p)
    {
      var location := locations[j];
      assert locations[..j + 1][..j] == locations[..j];
      var mine := Matching(filtered, employee, location);
      if |mine| > 0 {
        var worked := TotalDuration(mine);
        after := after + [TimeReport(employee.id, employee.name, location.id, location.name, PeriodName(p),
                                     worked, Overtime(worked, |mine|), mine)];
      }
      j := j + 1;
    }
    assert locations[..j] == locations;
  }

  /** Sorting keeps exactly the pushed reports. */
  lemma SortedReportsMembership(cs: seq<CheckIn>, es: seq<Employee>, ls: seq<Location>, p: Period)
    ensures forall r :: r in SortDesc(PushedReports(cs, es, ls, p), WorkedMs) <==>
              exists i, j :: 0 <= i < |es| && 0 <= j < |ls| && Matching(cs, es[i], ls[j]) != [] && r == ReportFor(cs, es[i], ls[j], p)
  {
    var pushed := PushedReports(cs, es, ls, p);
    var sorted := SortDesc(pushed, WorkedMs);
    PushedReportsMembership(cs, es, ls, p);
    forall r
      ensures r in sorted <==> r in pushed
    {
      assert r in sorted <==> r in multiset(sorted);
    }
  }

  /**
   * `generateTimeReports`: filters the check-ins to the period, pushes one
   * report per employee/location pair with work in the nested loops, then
   * sorts the reports by worked time, largest first.
   */
  method GenerateTimeReports(checkIns: seq<CheckIn>, employees: seq<Employee>, locations: seq<Location>, p: Period, now: Millis)
    returns (reports: seq<TimeReport>)
    ensures var filtered := FilterByPeriod(checkIns, p, now);
            reports == SortDesc(PushedReports(filtered, employees, locations, p), WorkedMs)
    ensures SortedDesc(reports, WorkedMs)
    ensures var filtered := FilterByPeriod(checkIns, p, now);
            forall r :: r in reports <==>
              exists i, j :: 0 <= i < |employees| && 0 <= j < |locations| &&
                Matching(filtered, employees[i], locations[j]) != [] && r == ReportFor(filtered, employees[i], locations[j], p)
  {
    var filtered := FilterByPeriod(checkIns, p, now);
    var pushed: seq<TimeReport> := [];
    var i := 0;
    while i < |employees|
      invariant 0 <= i <= |employees|
      invariant pushed == PushedReports(filtered, employees[..i], locations, p)
    {
      assert employees[..i + 1][..i] == employees[..i];
      pushed := PushRowReports(filtered, employees[i], locations, p, pushed);
      i := i + 1;
    }
    assert employees[..i] == employees;
    SortedReportsMembership(filtered, employees, locations, p);
    SortDescSorted(pushed, WorkedMs);
    reports := SortDesc(pushed, WorkedMs);
  }

  /**
   * Every check-in of the period whose employee and location are both
   * listed is counted in a report; check-ins of unlisted employees or
   * locations are in none.
   */
  lemma ReportsCoverListedCheckIns(cs: seq<CheckIn>, es: seq<Employee>, ls: seq<Location>, p: Period)
    ensures forall c, i, j :: c in cs && 0 <= i < |es| && 0 <= j < |ls| && Matches(c, es[i], ls[j]) ==>
              exists r :: r in PushedReports(cs, es, ls, p) && c in r.checkIns
    ensures forall r, c :: r in PushedReports(cs, es, ls, p) && c in r.checkIns ==>
              c in cs && (exists i :: 0 <= i < |es| && es[i].id == c.employeeId) && (exists j :: 0 <= j < |ls| && ls[j].id == c.locationId)
  {
    PushedReportsMembership(cs, es, ls, p);
    forall c, i, j | c in cs && 0 <= i < |es| && 0 <= j < |ls| && Matches(c, es[i], ls[j])
      ensures exists r :: r in PushedReports(cs, es, ls, p) && c in r.checkIns
    {
      assert c in Matching(cs, es[i], ls[j]);
      assert ReportFor(cs, es[i], ls[j], p) in PushedReports(cs, es, ls, p);
    }
    forall r, c | r in PushedReports(cs, es, ls, p) && c in r.checkIns
      ensures c in cs && (exists i :: 0 <= i < |es| && es[i].id == c.employeeId) && (exists j :: 0 <= j < |ls| && ls[j].id == c.locationId)
    {
      var i, j :| 0 <= i < |es| && 0 <= j < |ls| && Matching(cs, es[i], ls[j]) != [] && r == ReportFor(cs, es[i], ls[j], p);
    }
  }

  /** The overtime a report contributes to the total (`report.overtime || 0`). */
  function OvertimeOrZero(r: TimeReport): int {
    if r.overtimeMs.Some? then r.overtimeMs.value else 0
  }

  function EmployeeIdOf(r: TimeReport): string {
    r.employeeId
  }

  function LocationIdOf(r: TimeReport): string {
    r.locationId
  }

  /** `new Set(reports.map(id)).size`, built up one report at a time. */
  function DistinctIds(rs: seq<TimeReport>, id: TimeReport -> string): (r: set<string>)
    ensures |r| <= |rs|
    ensures r == {} <==> rs == []
    ensures forall x :: x in r <==> exists i :: 0 <= i < |rs| && id(rs[i]) == x
  {
    if rs == [] then {}
    else
      var before := DistinctIds(rs[..|rs| - 1], id);
      var r := before + {id(rs[|rs| - 1])};
      assert forall i :: 0 <= i < |rs| - 1 ==> rs[..|rs| - 1][i] == rs[i];
      r
  }

  datatype Totals = Totals(totalMs: int, overtimeMs: int, employeeCount: nat, locationCount: nat)

  /** `getTotalStats`: summed hours and overtime, and the numbers of distinct employees and locations. */
  function TotalStats(rs: seq<TimeReport>): (t: Totals)
    ensures t.employeeCount <= |rs| && t.locationCount <= |rs|
    ensures t.employeeCount == 0 <==> rs == []
    ensures t.locationCount == 0 <==> rs == []
  {
    Totals(SumBy(rs, WorkedMs), SumBy(rs, OvertimeOrZero), |DistinctIds(rs, EmployeeIdOf)|, |DistinctIds(rs, LocationIdOf)|)
  }

  /** The totals do not depend on the order of the reports, so sorting them first changes nothing. */
  lemma TotalStatsIgnoreSort(rs: seq<TimeReport>)
    ensures TotalStats(SortDesc(rs, WorkedMs)) == TotalStats(rs)
  {
    var sorted := SortDesc(rs, WorkedMs);
    SortDescSum(rs, WorkedMs, WorkedMs);
    SortDescSum(rs, WorkedMs, OvertimeOrZero);
    assert forall r :: r in sorted <==> r in rs by {
      forall r ensures r in sorted <==> r in rs {
        assert r in sorted <==> r in multiset(sorted);
        assert r in rs <==> r in multiset(rs);
      }
    }
    DistinctIdsSameElements(sorted, rs, EmployeeIdOf);
    DistinctIdsSameElements(sorted, rs, LocationIdOf);
  }

  lemma DistinctIdsSameElements(a: seq<TimeReport>, b: seq<TimeReport>, id: TimeReport -> string)
    requires forall r :: r in a <==> r in b
    ensures DistinctIds(a, id) == DistinctIds(b, id)
  {
    forall x | x in DistinctIds(a, id)
      ensures x in DistinctIds(b, id)
    {
      var i :| 0 <= i < |a| && id(a[i]) == x;
      assert a[i] in b;
      var j :| 0 <= j < |b| && b[j] == a[i];
    }
    forall x | x in DistinctIds(b, id)
      ensures x in DistinctIds(a, id)
    {
      var j :| 0 <= j < |b| && id(b[j]) == x;
      assert b[j] in a;
      var i :| 0 <= i < |a| && a[i] == b[j];
    }
  }

  /** Reports made by the overtime rule never carry a negative overtime, so the total overtime is not negative. */
  lemma TotalOvertimeNonNegative(rs: seq<TimeReport>)
    requires forall r :: r in rs && r.overtimeMs.Some? ==> r.overtimeMs.value > 0
    ensures TotalStats(rs).overtimeMs >= 0
  {
    SumByNonNegative(rs, OvertimeOrZero);
  }

  /** A report seen as a contribution to its employee: hours, credited to that employee's id and name, at a location name. */
  function EmployeeView(r: TimeReport): Entry {
    Entry(r.employeeId, r.employeeName, r.workedMs, r.locationName)
  }

  /** A report seen as a contribution to its location: hours, credited to that location's id and name, by an employee name. */
  function LocationView(r: TimeReport): Entry {
    Entry(r.locationId, r.locationName, r.workedMs, r.employeeName)
  }

  /** One row of the top-performer and location lists: id, name, hours and the number of distinct names seen. */
  datatype Ranked = Ranked(id: string, name: string, hoursMs: int, distinctCount: nat)

  function RankedOf(g: Group): Ranked {
    Ranked(g.key, g.name, g.total, |g.tags|)
  }

  function HoursOf(r: Ranked): int {
    r.hoursMs
  }

  function IdOf(r: Ranked): string {
    r.id
  }

  /** The `.map` over `Object.entries`: each bucket as a ranked row, in bucket order. */
  function RankedRows(gs: seq<Group>): (r: seq<Ranked>)
    ensures |r| == |gs|
    ensures forall i :: 0 <= i < |r| ==> r[i] == RankedOf(gs[i])
  {
    seq(|gs|, i requires 0 <= i < |gs| => RankedOf(gs[i]))
  }

  /** The ranked rows of a grouping, with one row per key, each its key's bucket. */
  lemma RankedRowsOfGroups(rs: seq<TimeReport>, view: TimeReport -> Entry)
    ensures DistinctBy(RankedRows(Groups(rs, view)), IdOf)
    ensures forall x :: x in RankedRows(Groups(rs, view)) ==>
              WithKey(rs, view, x.id) != [] && x == RankedOf(GroupOf(rs, view, x.id))
    ensures forall r :: r in rs ==> exists x :: x in RankedRows(Groups(rs, view)) && x.id == view(r).key
  {
    var gs := Groups(rs, view);
    var rows := RankedRows(gs);
    GroupsCharacterised(rs, view);
    forall x | x in rows
      ensures WithKey(rs, view, x.id) != [] && x == RankedOf(GroupOf(rs, view, x.id))
    {
      var i :| 0 <= i < |rows| && rows[i] == x;
      assert gs[i] in gs;
    }
    forall r | r in rs
      ensures exists x :: x in rows && x.id == view(r).key
    {
      var g :| g in gs && g.key == view(r).key;
      var i :| 0 <= i < |gs| && gs[i] == g;
      assert rows[i] in rows;
    }
  }

  /**
   * `getTopPerformers`: the reports grouped by employee id, summing hours
   * and collecting location names, ranked by hours and cut to five.
   */
  method TopPerformers(reports: seq<TimeReport>) returns (top: seq<Ranked>)
    ensures top == Take(SortDesc(RankedRows(Groups(reports, EmployeeView)), HoursOf), 5)
    ensures |top| <= 5 && SortedDesc(top, HoursOf) && DistinctBy(top, IdOf)
    ensures forall x :: x in top ==>
              WithKey(reports, EmployeeView, x.id) != [] &&
              x == RankedOf(GroupOf(reports, EmployeeView, x.id))
    ensures var all := RankedRows(Groups(reports, EmployeeView));
            forall x, y :: x in multiset(all) - multiset(top) && y in top ==> x.hoursMs <= y.hoursMs
  {
    var groups := GroupBy(reports, EmployeeView);
    var rows := RankedRows(groups);
    var sorted := SortDesc(rows, HoursOf);
    top := Take(sorted, 5);
    RankedRowsOfGroups(reports, EmployeeView);
    SortDescSorted(rows, HoursOf);
    SortDescDistinct(rows, HoursOf, IdOf);
    TakeKeeps(sorted, HoursOf, IdOf, 5);
    TopOfSorted(rows, HoursOf, 5);
    forall x | x in top
      ensures x in rows
    {
      assert x in sorted;
      assert x in multiset(sorted);
    }
  }

  /**
   * `getLocationStats`: the reports grouped by location id, summing hours
   * and collecting employee names, ranked by hours; nothing is cut.
   */
  method LocationStats(reports: seq<TimeReport>) returns (stats: seq<Ranked>)
    ensures stats == SortDesc(RankedRows(Groups(reports, LocationView)), HoursOf)
    ensures SortedDesc(stats, HoursOf) && DistinctBy(stats, IdOf)
    ensures forall x :: x in stats ==>
              WithKey(reports, LocationView, x.id) != [] &&
              x == RankedOf(GroupOf(reports, LocationView, x.id))
    ensures forall r :: r in reports ==> exists x :: x in stats && x.id == r.locationId
  {
    var groups := GroupBy(reports, LocationView);
    var rows := RankedRows(groups);
    stats := SortDesc(rows, HoursOf);
    RankedRowsOfGroups(reports, LocationView);
    SortDescSorted(rows, HoursOf);
    SortDescDistinct(rows, HoursOf, IdOf);
    forall x | x in stats
      ensures x in rows
    {
      assert x in multiset(stats);
    }
    forall r | r in reports
      ensures exists x :: x in stats && x.id == r.locationId
    {
      var x :| x in rows && x.id == LocationView(r).key;
      assert x in multiset(rows);
      assert x in stats;
    }
  }
}
