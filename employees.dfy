/**
 * The admin employee screen: per-employee statistics over the check-ins,
 * and the list operations (add, update, delete, toggle active) that each
 * build a new employee list and store it whole.
 */
module Employees {
  import opened Types
  import opened Text
  import opened Collections
  import opened Timekeeping

  /** What the screen shows next to an employee. */
  datatype Stats = Stats(totalMs: int, totalShifts: nat, lastCheckIn: Option<Millis>)

  /** `Math.max(...times)` over the check-in times, absent for no check-ins. */
  function LatestCheckIn(cs: seq<CheckIn>): (r: Option<Millis>)
    ensures r.None? <==> cs == []
    ensures r.Some? ==> (exists i :: 0 <= i < |cs| && cs[i].checkInTime == r.value) &&
                        forall i :: 0 <= i < |cs| ==> cs[i].checkInTime <= r.value
  {
    if cs == [] then None
    else
      var last := cs[|cs| - 1].checkInTime;
      var before := LatestCheckIn(cs[..|cs| - 1]);
      if before.Some? && before.value >= last then before else Some(last)
  }

  /**
   * The statistics of `loadData`: the worked time of the employee's closed
   * check-ins, the number of all their check-ins (open ones too), and the
   * latest check-in time, absent exactly when they have none.
   */
  function StatsFor(e: Employee, cs: seq<CheckIn>): (r: Stats)
    ensures r.totalMs == TotalDuration(Filter(CheckInsOf(cs, e.id), IsClosed))
    ensures r.totalShifts == |CheckInsOf(cs, e.id)|
    ensures r.lastCheckIn.None? <==> forall c :: c in cs ==> c.employeeId != e.id
    ensures r.lastCheckIn.Some? ==> (exists c :: c in cs && c.employeeId == e.id && c.checkInTime == r.lastCheckIn.value) &&
                                    forall c :: c in cs && c.employeeId == e.id ==> c.checkInTime <= r.lastCheckIn.value
  {
    var mine := CheckInsOf(cs, e.id);
    TotalIgnoresOpen(mine);
    var latest := LatestCheckIn(mine);
    assert forall i :: 0 <= i < |mine| ==> mine[i] in mine;
    Stats(TotalDuration(mine), |mine|, latest)
  }

  /**
   * A generated PIN: `Math.floor(10000 + Math.random() * 90000)` printed in
   * decimal; `draw` is the integer that expression yields.
   */
  function GeneratedPin(draw: nat): (r: string)
    requires 10000 <= draw <= 99999
    ensures |r| == 5 && AllDigits(r) && r[0] != '0'
    ensures ParseNat(r) == draw
  {
    FiveDigits(draw);
    ParseNatToString(draw);
    NatToString(draw)
  }

  /** The PIN field's `onChangeText`: the digits of what was typed, at most five. */
  function SanitizePin(text: string): (r: string)
    ensures |r| <= 5 && AllDigits(r)
    ensures r <= KeepDigits(text)
    ensures |r| == if |KeepDigits(text)| < 5 then |KeepDigits(text)| else 5
  {
    Take(KeepDigits(text), 5)
  }

  /** The form accepts fewer than five digits: a short PIN is stored as typed. */
  lemma ShortPinAccepted()
    ensures SanitizePin("12a3") == "123"
  {
    assert "12a3"[..3] == "12a";
    assert "12a3"[..3][..2] == "12";
    assert "12a3"[..3][..2][..1] == "1";
    assert "12a3"[..3][..2][..1][..0] == [];
  }

  /** The new-employee form. */
  datatype EmployeeForm = EmployeeForm(name: string, email: string, phone: string, position: string, pin: string)

  datatype EmployeeError = MissingField | DuplicateEmail | NothingSelected

  /** A stored PIN counts as present when it is there and not empty (`e.pin || …`). */
  predicate HasPin(e: Employee) {
    e.pin.Some? && e.pin.value != ""
  }

  /** `e.pin || generatePin()`, with `draw` standing for that call's random number. */
  function Backfilled(e: Employee, draw: nat): (r: Employee)
    requires 10000 <= draw <= 99999
    ensures HasPin(r) && r.(pin := e.pin) == e
    ensures HasPin(e) ==> r == e
  {
    if HasPin(e) then e else e.(pin := Some(GeneratedPin(draw)))
  }

  predicate ValidDraws(draws: seq<nat>) {
    forall i :: 0 <= i < |draws| ==> 10000 <= draws[i] <= 99999
  }

  /**
   * `addEmployee`.  It refuses a form with an empty name, email, phone or
   * position, and an email already used (compared exactly).  Otherwise it
   * backfills the PIN of every existing employee that has none, and appends
   * the new employee, active, hired `now`, with the typed PIN or a generated
   * one.  `draws[i]` is the random number for the i-th existing employee,
   * the last one that for the new employee.
   */
  function AddEmployee(es: seq<Employee>, form: EmployeeForm, freshId: string, now: Millis, draws: seq<nat>): (r: Result<seq<Employee>, EmployeeError>)
    requires |draws| == |es| + 1 && ValidDraws(draws)
    ensures r == Err(MissingField) <==> form.name == "" || form.email == "" || form.phone == "" || form.position == ""
    ensures r == Err(DuplicateEmail) <==> (form.name != "" && form.email != "" && form.phone != "" && form.position != "" &&
                                          exists e :: e in es && e.email == form.email)
    ensures r.Ok? <==> form.name != "" && form.email != "" && form.phone != "" && form.position != "" &&
                       !exists e :: e in es && e.email == form.email
    ensures r.Ok? ==>
      && |r.value| == |es| + 1
      && (forall i :: 0 <= i < |es| ==> r.value[i] == Backfilled(es[i], draws[i]))
      && r.value[|es|] == Employee(freshId, form.name, form.email, form.phone, form.position, now, true,
                                   Some(if form.pin != "" then form.pin else GeneratedPin(draws[|es|])))
  {
    if form.name == "" || form.email == "" || form.phone == "" || form.position == "" then Err(MissingField)
    else
      var emailTaken := (e: Employee) => e.email == form.email;
      if Exists(es, emailTaken) then Err(DuplicateEmail)
      else
        var pin := if form.pin != "" then form.pin else GeneratedPin(draws[|es|]);
        var added := Employee(freshId, form.name, form.email, form.phone, form.position, now, true, Some(pin));
        Ok(seq(|es|, i requires 0 <= i < |es| => Backfilled(es[i], draws[i])) + [added])
  }

  predicate EmailsDistinct(es: seq<Employee>) {
    forall i, j :: 0 <= i < j < |es| ==> es[i].email != es[j].email
  }

  /** Adding keeps emails unique and leaves every employee, old and new, with a PIN. */
  lemma AddEmployeeKeepsEmailsDistinct(es: seq<Employee>, form: EmployeeForm, freshId: string, now: Millis, draws: seq<nat>)
    requires |draws| == |es| + 1 && ValidDraws(draws)
    requires EmailsDistinct(es)
    ensures var r := AddEmployee(es, form, freshId, now, draws);
            r.Ok? ==> EmailsDistinct(r.value) && forall e :: e in r.value ==> HasPin(e)
  {
    var r := AddEmployee(es, form, freshId, now, draws);
    if r.Ok? {
      var v := r.value;
      forall i, j | 0 <= i < j < |v|
        ensures v[i].email != v[j].email
      {
        if j == |es| {
          assert es[i] in es;
        }
      }
    }
  }

  /** `emp.id === id ? selected : emp` over the list. */
  function ReplaceById(es: seq<Employee>, selected: Employee): (r: seq<Employee>)
    ensures |r| == |es|
    ensures forall i :: 0 <= i < |r| ==> (es[i].id == selected.id ==> r[i] == selected) && (es[i].id != selected.id ==> r[i] == es[i])
  {
    seq(|es|, i requires 0 <= i < |es| => if es[i].id == selected.id then selected else es[i])
  }

  /**
   * `updateEmployee`: refuses when nothing is selected or a required field
   * is empty; otherwise replaces the employees with the selected one's id.
   */
  function UpdateEmployee(es: seq<Employee>, selected: Option<Employee>): (r: Result<seq<Employee>, EmployeeError>)
    ensures r == Err(NothingSelected) <==> selected.None?
    ensures r == Err(MissingField) <==> (selected.Some? &&
              (selected.value.name == "" || selected.value.email == "" || selected.value.phone == "" || selected.value.position == ""))
    ensures r.Ok? <==> selected.Some? && selected.value.name != "" && selected.value.email != "" &&
                       selected.value.phone != "" && selected.value.position != ""
    ensures r.Ok? ==> selected.Some? && r.value == ReplaceById(es, selected.value)
  {
    if selected.None? then Err(NothingSelected)
    else
      var e := selected.value;
      if e.name == "" || e.email == "" || e.phone == "" || e.position == "" then Err(MissingField)
      else Ok(ReplaceById(es, e))
  }

  /** Saving the same edit twice is the same as saving it once; the ids never change. */
  lemma ReplaceByIdIdempotent(es: seq<Employee>, selected: Employee)
    ensures ReplaceById(ReplaceById(es, selected), selected) == ReplaceById(es, selected)
    ensures forall i :: 0 <= i < |es| ==> ReplaceById(es, selected)[i].id == es[i].id
  {
  }

  /** `deleteEmployee`: the employees whose id differs, in their order; shifts and check-ins are not touched. */
  function DeleteEmployee(es: seq<Employee>, id: string): (r: seq<Employee>)
    ensures forall e :: e in r <==> e in es && e.id != id
    ensures multiset(r) <= multiset(es)
  {
    var keep := (e: Employee) => e.id != id;
    FilterMultiset(es, keep);
    Filter(es, keep)
  }

  /** Deleting works piece by piece, so the remaining employees keep their order. */
  lemma DeleteEmployeeKeepsOrder(a: seq<Employee>, b: seq<Employee>, id: string)
    ensures DeleteEmployee(a + b, id) == DeleteEmployee(a, id) + DeleteEmployee(b, id)
  {
    var keep := (e: Employee) => e.id != id;
    FilterAppend(a, b, keep);
  }

  /** A single employee stays exactly when its id differs. */
  lemma DeleteEmployeeSingle(e: Employee, id: string)
    ensures DeleteEmployee([e], id) == if e.id != id then [e] else []
  {
    var keep := (x: Employee) => x.id != id;
    FilterSingle(e, keep);
  }

  /** Deleting an id that no employee has leaves the list as it is. */
  lemma DeleteAbsentIsIdentity(es: seq<Employee>, id: string)
    requires forall e :: e in es ==> e.id != id
    ensures DeleteEmployee(es, id) == es
  {
    var keep := (e: Employee) => e.id != id;
    FilterAll(es, keep);
  }

  /** `toggleEmployeeStatus`: flips `isActive` of the employees with that id. */
  function ToggleEmployeeStatus(es: seq<Employee>, id: string): (r: seq<Employee>)
    ensures |r| == |es|
    ensures forall i :: 0 <= i < |r| && es[i].id == id ==> r[i].isActive == !es[i].isActive && r[i].(isActive := es[i].isActive) == es[i]
    ensures forall i :: 0 <= i < |r| && es[i].id != id ==> r[i] == es[i]
  {
    seq(|es|, i requires 0 <= i < |es| => if es[i].id == id then es[i].(isActive := !es[i].isActive) else es[i])
  }

  /** Toggling twice restores the list. */
  lemma ToggleTwiceRestores(es: seq<Employee>, id: string)
    ensures ToggleEmployeeStatus(ToggleEmployeeStatus(es, id), id) == es
  {
    var once := ToggleEmployeeStatus(es, id);
    var twice := ToggleEmployeeStatus(once, id);
    forall i | 0 <= i < |es|
      ensures twice[i] == es[i]
    {
      if es[i].id == id {
        assert once[i] == es[i].(isActive := !es[i].isActive);
      }
    }
  }
}
