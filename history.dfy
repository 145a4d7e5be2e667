/**
 * The employee work-history screen: the user's check-ins within the chosen
 * period, newest first, the hours worked in them, and the hours per
 * location.
 *
 * For the "all" period the screen sorts its own check-in list in place and
 * returns it; for the other periods it sorts a filtered copy.  The screen
 * state is therefore a class whose list the period query may reorder.
 */
module History {
  import opened Types
  import opened Collections
  import opened Sorting
  import opened Timekeeping
  import opened Calendar
  import opened Grouping

  function CheckInTimeOf(c: CheckIn): int {
    c.checkInTime
  }

  /**
   * What `getFilteredCheckIns` returns: the check-ins of the period, newest
   * check-in first, ties left in list order.
   */
  function Filtered(cs: seq<CheckIn>, p: Period, now: Millis): (r: seq<CheckIn>)
    ensures SortedDesc(r, CheckInTimeOf)
    ensures multiset(r) == multiset(FilterByPeriod(cs, p, now))
    ensures forall c :: c in r <==> c in cs && InPeriod(c, p, now)
  {
    var kept := FilterByPeriod(cs, p, now);
    SortDescSorted(kept, CheckInTimeOf);
    SortDescMembers(kept, CheckInTimeOf);
    SortDesc(kept, CheckInTimeOf)
  }

  /**
   * Once the "all" query has sorted the list, asking again returns the same
   * list: sorting a sorted list leaves it as it is.
   */
  lemma AllTimeSettles(cs: seq<CheckIn>, now: Millis, later: Millis)
    ensures Filtered(Filtered(cs, AllTime, now), AllTime, later) == Filtered(cs, AllTime, now)
  {
    SortDescSortedIdentity(Filtered(cs, AllTime, now), CheckInTimeOf);
  }

  /**
   * `calculateTotalHours`: the order the list is shown in does not matter,
   * and only closed check-ins of the period count.
   */
  lemma TotalOfFiltered(cs: seq<CheckIn>, p: Period, now: Millis)
    ensures TotalDuration(Filtered(cs, p, now)) == TotalDuration(Filter(FilterByPeriod(cs, p, now), IsClosed))
  {
    var kept := FilterByPeriod(cs, p, now);
    SortDescSum(kept, CheckInTimeOf, Duration);
    TotalIgnoresOpen(kept);
  }

  /** How `getLocationStats` sees a closed check-in: keyed and named by location name, worth its duration. */
  function LocationEntry(c: CheckIn): Entry {
    Entry(c.locationName, c.locationName, Duration(c), "")
  }

  function KeyOf(g: Group): string {
    g.key
  }

  /** The location rows: the closed check-ins bucketed by location name, most hours first, at most five. */
  function LocationStatsOf(filtered: seq<CheckIn>): seq<Group> {
    Take(SortDesc(Groups(Filter(filtered, IsClosed), LocationEntry), Total), 5)
  }

  /**
   * The location rows are at most five, most hours first, one per location
   * name; each holds exactly the hours and the number of that location's
   * closed check-ins; and no location left out has more hours than one shown.
   */
  lemma LocationStatsRanked(filtered: seq<CheckIn>)
    ensures var r := LocationStatsOf(filtered);
            |r| <= 5 && SortedDesc(r, Total) && DistinctBy(r, KeyOf)
    ensures var gs := Groups(Filter(filtered, IsClosed), LocationEntry);
            |LocationStatsOf(filtered)| == if |gs| < 5 then |gs| else 5
    ensures var closed := Filter(filtered, IsClosed);
            forall g :: g in LocationStatsOf(filtered) ==>
              WithKey(closed, LocationEntry, g.key) != [] && g == GroupOf(closed, LocationEntry, g.key)
    ensures var gs := Groups(Filter(filtered, IsClosed), LocationEntry);
            forall x, y :: x in multiset(gs) - multiset(LocationStatsOf(filtered)) && y in LocationStatsOf(filtered) ==> Total(x) <= Total(y)
  {
    var closed := Filter(filtered, IsClosed);
    var gs := Groups(closed, LocationEntry);
    var sorted := SortDesc(gs, Total);
    var r := Take(sorted, 5);
    GroupsCharacterised(closed, LocationEntry);
    assert DistinctBy(gs, KeyOf);
    SortDescSorted(gs, Total);
    SortDescDistinct(gs, Total, KeyOf);
    SortDescMembers(gs, Total);
    TakeKeeps(sorted, Total, KeyOf, 5);
    TopOfSorted(gs, Total, 5);
    forall g | g in r
      ensures g in gs
    {
      assert g in sorted;
    }
  }

  /** The state of the history screen. */
  class HistoryScreen {
    var user: User
    var checkIns: seq<CheckIn>
    var shifts: seq<Shift>
    var selectedPeriod: Period

    /** `loadData`: the user's check-ins (by id) and shifts (by id or name); the period starts at "week". */
    constructor Load(u: User, storedCheckIns: seq<CheckIn>, storedShifts: seq<Shift>)
      ensures user == u && selectedPeriod == Week
      ensures checkIns == CheckInsOf(storedCheckIns, u.id)
      ensures shifts == ShiftsOf(storedShifts, u)
    {
      user := u;
      checkIns := CheckInsOf(storedCheckIns, u.id);
      shifts := ShiftsOf(storedShifts, u);
      selectedPeriod := Week;
    }

    /** The period picker. */
    method SelectPeriod(p: Period)
      modifies this
      ensures selectedPeriod == p
      ensures user == old(user) && checkIns == old(checkIns) && shifts == old(shifts)
    {
      selectedPeriod := p;
    }

    /**
     * `getFilteredCheckIns`.  For "all" the screen's own list is sorted in
     * place and returned; otherwise a sorted copy of the period's check-ins
     * is returned and the list is left alone.
     */
    method FilteredCheckIns(now: Millis) returns (r: seq<CheckIn>)
      modifies this
      ensures r == Filtered(old(checkIns), selectedPeriod, now)
      ensures selectedPeriod == AllTime ==> checkIns == r
      ensures selectedPeriod != AllTime ==> checkIns == old(checkIns)
      ensures user == old(user) && shifts == old(shifts) && selectedPeriod == old(selectedPeriod)
    {
      if selectedPeriod == AllTime {
        checkIns := SortDesc(checkIns, CheckInTimeOf);
        r := checkIns;
      } else {
        r := SortDesc(FilterByPeriod(checkIns, selectedPeriod, now), CheckInTimeOf);
      }
    }

    /** `calculateTotalHours`: the durations of the closed check-ins of the period, summed. */
    method TotalHours(now: Millis) returns (ms: int)
      modifies this
      ensures ms == TotalDuration(Filter(FilterByPeriod(old(checkIns), selectedPeriod, now), IsClosed))
      ensures selectedPeriod == AllTime ==> checkIns == Filtered(old(checkIns), AllTime, now)
      ensures selectedPeriod != AllTime ==> checkIns == old(checkIns)
      ensures user == old(user) && shifts == old(shifts) && selectedPeriod == old(selectedPeriod)
    {
      var filtered := FilteredCheckIns(now);
      ms := TotalDuration(filtered);
      TotalOfFiltered(old(checkIns), selectedPeriod, now);
    }

    /** The "Total Check-ins" figure: how many check-ins the period holds. */
    method CheckInCount(now: Millis) returns (n: nat)
      modifies this
      ensures n == |FilterByPeriod(old(checkIns), selectedPeriod, now)|
      ensures selectedPeriod == AllTime ==> checkIns == Filtered(old(checkIns), AllTime, now)
      ensures selectedPeriod != AllTime ==> checkIns == old(checkIns)
      ensures user == old(user) && shifts == old(shifts) && selectedPeriod == old(selectedPeriod)
    {
      var filtered := FilteredCheckIns(now);
      n := |filtered|;
      assert |multiset(filtered)| == |filtered|;
    }

    /** `getLocationStats`: hours and count per location name over the period's closed check-ins, top five. */
    method LocationStats(now: Millis) returns (stats: seq<Group>)
      modifies this
      ensures stats == LocationStatsOf(Filtered(old(checkIns), selectedPeriod, now))
      ensures selectedPeriod == AllTime ==> checkIns == Filtered(old(checkIns), AllTime, now)
      ensures selectedPeriod != AllTime ==> checkIns == old(checkIns)
      ensures user == old(user) && shifts == old(shifts) && selectedPeriod == old(selectedPeriod)
    {
      var filtered := FilteredCheckIns(now);
      var closed := Filter(filtered, IsClosed);
      var groups := GroupBy(closed, LocationEntry);
      stats := Take(SortDesc(groups, Total), 5);
    }
  }
}
