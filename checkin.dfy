/**
 * The employee check-in screen: it finds today's shift and the employee's
 * open check-in, and moves a shift through scheduled -> in-progress ->
 * completed while appending and then closing one check-in record.
 *
 * The stored `shifts` and `checkIns` collections are fields of the screen;
 * reading and writing them back to storage is not modelled.  The rule that
 * an employee has at most one open check-in is not checked by the code: it
 * holds because the screen offers "Check In" only while no check-in is
 * open.  Here it is the screen's invariant.
 */
module CheckInFlow {
  import opened Types
  import opened Text
  import opened Collections

  /** The shift the screen offers for checking in: today's, the user's (by id or by name), not completed. */
  predicate CheckableToday(s: Shift, u: User, today: Day) {
    s.date == today && ShiftBelongsTo(s, u) && s.status != Completed
  }

  /** `findCurrentShift`: the first checkable shift in list order, or none. */
  function FindCurrentShift(shifts: seq<Shift>, u: User, today: Day): (r: Option<Shift>)
    ensures r.None? <==> forall i :: 0 <= i < |shifts| ==> !CheckableToday(shifts[i], u, today)
    ensures r.Some? ==> exists i :: 0 <= i < |shifts| && shifts[i] == r.value && CheckableToday(r.value, u, today) &&
                          forall j :: 0 <= j < i ==> !CheckableToday(shifts[j], u, today)
  {
    var p := (s: Shift) => CheckableToday(s, u, today);
    Find(shifts, p)
  }

  /** An open check-in of the user, matched by employee id only. */
  predicate OpenFor(c: CheckIn, u: User) {
    c.employeeId == u.id && IsOpen(c)
  }

  /** `checkActiveCheckIn`: the first open check-in of the user, or none. */
  function FindActiveCheckIn(cs: seq<CheckIn>, u: User): (r: Option<CheckIn>)
    ensures r.None? <==> forall i :: 0 <= i < |cs| ==> !OpenFor(cs[i], u)
    ensures r.Some? ==> exists i :: 0 <= i < |cs| && cs[i] == r.value && OpenFor(r.value, u) &&
                          forall j :: 0 <= j < i ==> !OpenFor(cs[j], u)
  {
    var p := (c: CheckIn) => OpenFor(c, u);
    Find(cs, p)
  }

  /** The employee with id `uid` has no two open check-ins. */
  predicate AtMostOneOpen(cs: seq<CheckIn>, uid: string) {
    forall i, j :: 0 <= i < j < |cs| && cs[i].employeeId == uid && cs[j].employeeId == uid ==>
      !(IsOpen(cs[i]) && IsOpen(cs[j]))
  }

  /** The `shifts.map` of both handlers: the shifts with id `id` get status `st`, nothing else changes. */
  function SetShiftStatus(shifts: seq<Shift>, id: string, st: ShiftStatus): (r: seq<Shift>)
    ensures |r| == |shifts|
    ensures forall i :: 0 <= i < |r| ==> r[i].id == shifts[i].id
    ensures forall i :: 0 <= i < |r| && shifts[i].id == id ==> r[i].status == st && r[i].(status := shifts[i].status) == shifts[i]
    ensures forall i :: 0 <= i < |r| && shifts[i].id != id ==> r[i] == shifts[i]
  {
    seq(|shifts|, i requires 0 <= i < |shifts| => if shifts[i].id == id then shifts[i].(status := st) else shifts[i])
  }

  /** The `checkIns.map` of check-out: the check-ins with id `id` get check-out time `now`, nothing else changes. */
  function CloseCheckIn(cs: seq<CheckIn>, id: string, now: Millis): (r: seq<CheckIn>)
    ensures |r| == |cs|
    ensures forall i :: 0 <= i < |r| && cs[i].id == id ==> r[i].checkOutTime == Some(now) && r[i].(checkOutTime := cs[i].checkOutTime) == cs[i]
    ensures forall i :: 0 <= i < |r| && cs[i].id != id ==> r[i] == cs[i]
  {
    seq(|cs|, i requires 0 <= i < |cs| => if cs[i].id == id then cs[i].(checkOutTime := Some(now)) else cs[i])
  }

  /** Setting the same status twice is the same as setting it once. */
  lemma SetShiftStatusIdempotent(shifts: seq<Shift>, id: string, st: ShiftStatus)
    ensures SetShiftStatus(SetShiftStatus(shifts, id, st), id, st) == SetShiftStatus(shifts, id, st)
  {
    var once := SetShiftStatus(shifts, id, st);
    var twice := SetShiftStatus(once, id, st);
    forall i | 0 <= i < |once|
      ensures twice[i] == once[i]
    {
      if shifts[i].id == id {
        assert once[i] == shifts[i].(status := st);
      }
    }
  }

  /**
   * Once a shift is completed at check-out, the finder never offers it again
   * (nor any other shift carrying its id).
   */
  lemma CompletedShiftNotOfferedAgain(shifts: seq<Shift>, id: string, u: User, today: Day)
    ensures var r := FindCurrentShift(SetShiftStatus(shifts, id, Completed), u, today);
            r.Some? ==> r.value.id != id
  {
  }

  /**
   * Without the screen's gating the rule breaks: checking in again while a
   * check-in is open leaves the employee with two open check-ins.
   */
  lemma UngatedCheckInBreaksRule(cs: seq<CheckIn>, u: User, record: CheckIn)
    requires FindActiveCheckIn(cs, u).Some?
    requires record.employeeId == u.id && IsOpen(record)
    ensures !AtMostOneOpen(cs + [record], u.id)
  {
    var i :| 0 <= i < |cs| && OpenFor(cs[i], u);
    var both := cs + [record];
    assert both[i] == cs[i] && both[|cs|] == record;
  }

  /** Appending an open check-in when none is open keeps the rule and makes it the active one. */
  lemma AppendOpenKeepsRule(cs: seq<CheckIn>, u: User, record: CheckIn)
    requires AtMostOneOpen(cs, u.id) && FindActiveCheckIn(cs, u).None?
    requires record.employeeId == u.id && IsOpen(record)
    ensures AtMostOneOpen(cs + [record], u.id)
    ensures FindActiveCheckIn(cs + [record], u) == Some(record)
  {
    var both := cs + [record];
    forall j | 0 <= j < |cs|
      ensures !OpenFor(both[j], u)
    {
      assert both[j] == cs[j];
    }
    assert OpenFor(both[|cs|], u);
  }

  /**
   * Closing the active check-in by its id leaves the employee with no open
   * check-in, so the rule holds trivially afterwards.
   */
  lemma CloseActiveLeavesNoneOpen(cs: seq<CheckIn>, u: User, active: CheckIn, now: Millis)
    requires AtMostOneOpen(cs, u.id) && FindActiveCheckIn(cs, u) == Some(active)
    ensures FindActiveCheckIn(CloseCheckIn(cs, active.id, now), u).None?
    ensures AtMostOneOpen(CloseCheckIn(cs, active.id, now), u.id)
  {
    var r := CloseCheckIn(cs, active.id, now);
    var k :| 0 <= k < |cs| && cs[k] == active && OpenFor(active, u);
    forall i | 0 <= i < |r|
      ensures !OpenFor(r[i], u)
    {
      if cs[i].id != active.id {
        assert r[i] == cs[i];
      }
    }
  }

  /** What the address lookup returned for the device position. */
  datatype Address = Address(street: Option<string>, city: Option<string>, region: Option<string>)

  function OrEmpty(s: Option<string>): string {
    if s.Some? then s.value else ""
  }

  /**
   * The street, city and region joined by spaces, with white space cut off
   * both ends: empty exactly when all three are missing or blank, and made
   * only of their characters and the separating spaces.
   */
  function AddressLine(a: Address): (r: string)
    ensures r == [] || (!IsSpace(r[0]) && !IsSpace(r[|r| - 1]))
    ensures r == [] <==> Blank(OrEmpty(a.street)) && Blank(OrEmpty(a.city)) && Blank(OrEmpty(a.region))
    ensures forall c :: c in r ==> c == ' ' || c in OrEmpty(a.street) || c in OrEmpty(a.city) || c in OrEmpty(a.region)
  {
    var joined := OrEmpty(a.street) + " " + OrEmpty(a.city) + " " + OrEmpty(a.region);
    JoinedParts(OrEmpty(a.street), OrEmpty(a.city), OrEmpty(a.region));
    TrimChars(joined);
    Trim(joined)
  }

  /** Three parts joined by spaces: blank exactly when every part is, and made of their characters and spaces. */
  lemma JoinedParts(street: string, city: string, region: string)
    ensures Blank(street + " " + city + " " + region) <==> Blank(street) && Blank(city) && Blank(region)
    ensures forall c :: c in street + " " + city + " " + region ==> c == ' ' || c in street || c in city || c in region
  {
    BlankAppend(street + " " + city + " ", region);
    BlankAppend(street + " " + city, " ");
    BlankAppend(street + " ", city);
    BlankAppend(street, " ");
    assert Blank(" ");
  }

  /** A full address whose parts carry no stray white space reads "street city region". */
  lemma FullAddressLine(street: string, city: string, region: string)
    requires street != [] && city != [] && region != []
    requires !IsSpace(street[0]) && !IsSpace(region[|region| - 1])
    ensures AddressLine(Address(Some(street), Some(city), Some(region))) == street + " " + city + " " + region
  {
    var joined := street + " " + city + " " + region;
    assert joined[0] == street[0];
    assert joined[|joined| - 1] == region[|region| - 1];
    TrimOfTrimmed(joined);
  }

  /** `notes.trim() || undefined`: the trimmed notes, or none when only white space was typed. */
  function CheckInNotes(notes: string): (r: Option<string>)
    ensures r.Some? ==> r.value == Trim(notes) && r.value != []
    ensures r.None? <==> Trim(notes) == []
  {
    if Trim(notes) == [] then None else Some(Trim(notes))
  }

  /** What the action area of the screen shows. */
  datatype Action = OfferCheckOut | OfferCheckIn(enabled: bool) | NoShiftToday

  /**
   * The gating of the action area: check-out while a check-in is open,
   * otherwise check-in when there is a current shift (enabled only with a
   * location fix), otherwise nothing to do.
   */
  function OfferedAction(active: Option<CheckIn>, current: Option<Shift>, location: Option<Coordinates>): (r: Action)
    ensures r == OfferCheckOut <==> active.Some?
    ensures r.OfferCheckIn? <==> active.None? && current.Some?
    ensures r == OfferCheckIn(true) <==> active.None? && current.Some? && location.Some?
  {
    if active.Some? then OfferCheckOut
    else if current.Some? then OfferCheckIn(location.Some?)
    else NoShiftToday
  }

  /**
   * The record `handleCheckIn` appends: the shift's ids and location, the
   * user, `now`, no check-out, the position with the looked-up address, and
   * the trimmed notes.
   */
  function NewCheckIn(freshId: string, shift: Shift, u: User, now: Millis, position: Coordinates,
                      geocoded: Option<Address>, notes: string): CheckIn
  {
    var address := if geocoded.Some? then Some(AddressLine(geocoded.value)) else None;
    CheckIn(freshId, shift.id, u.id, u.name, shift.locationId, shift.locationName, now, None,
            Some(ActualLocation(position.latitude, position.longitude, address)), CheckInNotes(notes))
  }

  datatype CheckInOutcome = NoShiftFound | LocationRequired | CheckedIn(record: CheckIn)

  datatype CheckOutOutcome = NoActiveCheckIn | CheckedOut(closed: CheckIn)

  /** The screen's state: the signed-in user, the stored collections and what the screen shows. */
  class CheckInScreen {
    var user: User
    var shifts: seq<Shift>
    var checkIns: seq<CheckIn>
    var currentShift: Option<Shift>
    var activeCheckIn: Option<CheckIn>
    var location: Option<Coordinates>
    var notes: string

    /** The user has at most one open check-in, and the screen shows the first of them. */
    ghost predicate Valid()
      reads this
    {
      AtMostOneOpen(checkIns, user.id) && activeCheckIn == FindActiveCheckIn(checkIns, user)
    }

    /** `loadUserData`: the user's current shift for `today` and their open check-in. */
    constructor Load(u: User, today: Day, storedShifts: seq<Shift>, storedCheckIns: seq<CheckIn>, fix: Option<Coordinates>)
      requires AtMostOneOpen(storedCheckIns, u.id)
      ensures Valid()
      ensures user == u && shifts == storedShifts && checkIns == storedCheckIns && location == fix && notes == ""
      ensures currentShift == FindCurrentShift(storedShifts, u, today)
      ensures activeCheckIn == FindActiveCheckIn(storedCheckIns, u)
    {
      user := u;
      shifts := storedShifts;
      checkIns := storedCheckIns;
      currentShift := FindCurrentShift(storedShifts, u, today);
      activeCheckIn := FindActiveCheckIn(storedCheckIns, u);
      location := fix;
      notes := "";
    }

    /** The notes field's `onChangeText`. */
    method EditNotes(text: string)
      modifies this
      ensures notes == text
      ensures user == old(user) && shifts == old(shifts) && checkIns == old(checkIns)
      ensures currentShift == old(currentShift) && activeCheckIn == old(activeCheckIn) && location == old(location)
    {
      notes := text;
    }

    /**
     * `handleCheckIn`, reachable only through the check-in button, which the
     * screen shows only while no check-in is open.  It aborts without a
     * current shift or without a location; otherwise it appends one open
     * check-in built from the shift, the user, `now`, the position and the
     * trimmed notes, moves the shift to in-progress and clears the notes.
     * `freshId` is the `Date.now()` id; `geocoded` the address lookup's
     * first result, none when the lookup found nothing or failed.
     */
    method HandleCheckIn(freshId: string, now: Millis, geocoded: Option<Address>) returns (outcome: CheckInOutcome)
      requires Valid() && activeCheckIn.None?
      modifies this
      ensures Valid()
      ensures user == old(user) && location == old(location) && currentShift == old(currentShift)
      ensures old(currentShift).None? ==> outcome == NoShiftFound
      ensures old(currentShift).Some? && old(location).None? ==> outcome == LocationRequired
      ensures old(currentShift).Some? && old(location).Some? ==> outcome.CheckedIn?
      ensures !outcome.CheckedIn? ==> shifts == old(shifts) && checkIns == old(checkIns) && activeCheckIn == old(activeCheckIn) && notes == old(notes)
      ensures outcome.CheckedIn? ==>
        var shift, record := old(currentShift).value, outcome.record;
        && old(location).Some?
        && record == NewCheckIn(freshId, shift, user, now, old(location).value, geocoded, old(notes))
        && checkIns == old(checkIns) + [record]
        && shifts == SetShiftStatus(old(shifts), shift.id, InProgress)
        && activeCheckIn == Some(record)
        && notes == ""
    {
      if currentShift.None? {
        return NoShiftFound;
      }
      if location.None? {
        return LocationRequired;
      }
      var shift := currentShift.value;
      var record := NewCheckIn(freshId, shift, user, now, location.value, geocoded, notes);
      CommitCheckIn(record, shift.id);
      outcome := CheckedIn(record);
    }

    /**
     * The writes of a successful check-in: push the record, mark the shift
     * in progress, make the record the active one and clear the notes.
     */
    method CommitCheckIn(record: CheckIn, shiftId: string)
      requires Valid() && activeCheckIn.None?
      requires record.employeeId == user.id && IsOpen(record)
      modifies this
      ensures Valid()
      ensures user == old(user) && location == old(location) && currentShift == old(currentShift)
      ensures checkIns == old(checkIns) + [record]
      ensures shifts == SetShiftStatus(old(shifts), shiftId, InProgress)
      ensures activeCheckIn == Some(record) && notes == ""
    {
      AppendOpenKeepsRule(checkIns, user, record);
      checkIns := checkIns + [record];
      shifts := SetShiftStatus(shifts, shiftId, InProgress);
      activeCheckIn := Some(record);
      notes := "";
    }

    /**
     * `handleCheckOut`: aborts when no check-in is open; otherwise stamps
     * `now` as the check-out time of the check-ins with the active id, moves
     * the active check-in's shift to completed and clears both the active
     * check-in and the current shift.
     */
    method HandleCheckOut(now: Millis) returns (outcome: CheckOutOutcome)
      requires Valid()
      modifies this
      ensures Valid()
      ensures user == old(user) && location == old(location) && notes == old(notes)
      ensures outcome.NoActiveCheckIn? <==> old(activeCheckIn).None?
      ensures outcome.NoActiveCheckIn? ==> shifts == old(shifts) && checkIns == old(checkIns) && currentShift == old(currentShift)
      ensures outcome.CheckedOut? ==>
        var active := old(activeCheckIn).value;
        && outcome.closed == active
        && checkIns == CloseCheckIn(old(checkIns), active.id, now)
        && shifts == SetShiftStatus(old(shifts), active.shiftId, Completed)
        && currentShift.None?
      ensures activeCheckIn.None?
    {
      if activeCheckIn.None? {
        return NoActiveCheckIn;
      }
      var active := activeCheckIn.value;
      CloseActiveLeavesNoneOpen(checkIns, user, active, now);
      checkIns := CloseCheckIn(checkIns, active.id, now);
      shifts := SetShiftStatus(shifts, active.shiftId, Completed);
      activeCheckIn := None;
      currentShift := None;
      outcome := CheckedOut(active);
    }
  }
}
