/** The entities of the time-tracking record service and the layout of its data file. */
module Records {

  datatype Option<T> = None | Some(value: T)

  /** Outcome of a record-service operation: the created or found value, or why it was refused. */
  datatype Result<T> = Ok(value: T) | Err(error: Failure)

  /** The refusals the handlers report to their callers. */
  datatype Failure =
    | EmptyField        // project name or client missing or empty
    | NamingError       // the client already has a project of that name
    | DailyLimit        // the day's logged minutes would exceed the cap
    | EmployeeNotFound  // no time entry carries the requested employee id

  /** A calendar day in local time: the year, month and day-of-month of a timestamp. */
  datatype Date = Date(year: int, month: int, day: int)

  datatype Project = Project(id: string, name: string, client: string)

  datatype Employee = Employee(id: string, firstName: string, lastName: string, email: string)

  /** A logged piece of work. `employeeId` and `projectId` are never checked against the other
      collections, and `minutes` is not range-checked: it may be negative. */
  datatype TimeEntry = TimeEntry(
    id: string,
    employeeId: string,
    projectId: string,
    task: string,
    minutes: int,
    date: Date)

  /** The content of the data file: three ordered sequences, read and written as one unit. */
  datatype Snapshot = Snapshot(projects: seq<Project>, employees: seq<Employee>, timeEntries: seq<TimeEntry>)

  /** Eight hours, the most that may be logged on one calendar day. */
  const MaxDailyMinutes := 480
}
