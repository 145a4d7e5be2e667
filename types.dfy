/**
 * The records of the shift app (types/index.ts) as Dafny datatypes.
 *
 * Times are integers: instants are epoch milliseconds (what `Date.getTime()`
 * yields) and a shift's calendar date is a day number standing for the
 * `YYYY-MM-DD` string the calendar widget produces.  Two such strings are
 * equal exactly when their day numbers are, and they order the same way.
 */
module Types {

  datatype Option<T> = None | Some(value: T)

  datatype Result<T, E> = Ok(value: T) | Err(error: E)

  /** Epoch milliseconds. */
  type Millis = int

  /** A calendar day, counted from the epoch (stands for a `YYYY-MM-DD` string). */
  type Day = int

  /** The four states a shift can be in; nothing else can be stored. */
  datatype ShiftStatus = Scheduled | InProgress | Completed | Missed

  datatype Role = AdminRole | EmployeeRole

  /** The signed-in session record. */
  datatype User = User(
    id: string,
    name: string,
    role: Role,
    email: string,
    phone: Option<string>,
    pin: Option<string>)

  datatype Coordinates = Coordinates(latitude: real, longitude: real)

  datatype Location = Location(
    id: string,
    name: string,
    address: string,
    coordinates: Option<Coordinates>,
    description: Option<string>)

  datatype Shift = Shift(
    id: string,
    employeeId: string,
    employeeName: string,
    locationId: string,
    locationName: string,
    date: Day,
    startTime: string,   // "HH:MM" as typed into the form
    endTime: string,     // "HH:MM" as typed into the form
    status: ShiftStatus,
    notes: Option<string>,
    createdAt: Millis,
    updatedAt: Millis)

  /** Where the device was when the employee checked in. */
  datatype ActualLocation = ActualLocation(latitude: real, longitude: real, address: Option<string>)

  datatype CheckIn = CheckIn(
    id: string,
    shiftId: string,
    employeeId: string,
    employeeName: string,
    locationId: string,
    locationName: string,
    checkInTime: Millis,
    checkOutTime: Option<Millis>,
    actualLocation: Option<ActualLocation>,
    notes: Option<string>)

  datatype Employee = Employee(
    id: string,
    name: string,
    email: string,
    phone: string,
    position: string,
    hireDate: Millis,
    isActive: bool,
    pin: Option<string>)

  /** One row of the admin report: an employee's work at one location in a period. */
  datatype TimeReport = TimeReport(
    employeeId: string,
    employeeName: string,
    locationId: string,
    locationName: string,
    date: string,            // the period name the report was built for
    workedMs: int,           // hoursWorked, in milliseconds
    overtimeMs: Option<int>, // overtime, in milliseconds; absent when there is none
    checkIns: seq<CheckIn>)

  /** The theme colours the screens pick between. */
  datatype Color = Primary | Success | Warning | Danger | Accent

  /** A check-in is open (the employee is on shift) exactly while it has no check-out time. */
  predicate IsOpen(c: CheckIn) {
    c.checkOutTime.None?
  }

  /**
   * The legacy identity rule of the employee screens: a shift belongs to the
   * signed-in user when either its employee id or its employee name matches.
   */
  predicate ShiftBelongsTo(s: Shift, u: User) {
    s.employeeId == u.id || s.employeeName == u.name
  }

  /** The status as it is spelled in stored JSON. */
  function StatusName(s: ShiftStatus): string {
    match s
    case Scheduled => "scheduled"
    case InProgress => "in-progress"
    case Completed => "completed"
    case Missed => "missed"
  }

  /** Reads a stored status; exactly the four spellings are accepted. */
  function ParseStatus(name: string): (r: Option<ShiftStatus>)
    ensures r.Some? <==> name in ["scheduled", "in-progress", "completed", "missed"]
    ensures r.Some? ==> StatusName(r.value) == name
  {
    if name == "scheduled" then Some(Scheduled)
    else if name == "in-progress" then Some(InProgress)
    else if name == "completed" then Some(Completed)
    else if name == "missed" then Some(Missed)
    else None
  }

  lemma StatusNameRoundTrip(s: ShiftStatus)
    ensures ParseStatus(StatusName(s)) == Some(s)
  {
  }
}
