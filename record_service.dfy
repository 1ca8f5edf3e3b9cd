/** The record service: one loaded dataset and the handlers that read it, check a request
    against it and append to one of its three sequences. */
module RecordService {
  import opened Records
  import opened Lists
  import opened Validator

  /** A required request field is refused when it is absent or the empty string. */
  predicate Blank(field: Option<string>)
  {
    field.None? || field.value == ""
  }

  class Dataset {
    var projects: seq<Project>
    var employees: seq<Employee>
    var timeEntries: seq<TimeEntry>

    /** What the handlers keep true of a dataset built from an empty one. */
    ghost predicate Valid()
      reads this
    {
      ProjectsUnique(projects) && WithinDailyCap(timeEntries)
    }

    /** Loads the data file. `None` stands for a file that is missing, cannot be read or does
        not parse; the dataset is then empty rather than an error. */
    constructor Load(file: Option<Snapshot>)
      ensures file.None? ==> projects == [] && employees == [] && timeEntries == [] && Valid()
      ensures file.Some? ==>
        projects == file.value.projects &&
        employees == file.value.employees &&
        timeEntries == file.value.timeEntries
    {
      match file {
        case None =>
          projects, employees, timeEntries := [], [], [];
          assert forall d :: DayTotal([], d) == 0;
        case Some(saved) =>
          projects, employees, timeEntries := saved.projects, saved.employees, saved.timeEntries;
      }
    }

    /** All projects in insertion order. */
    method ListProjects() returns (ps: seq<Project>)
      ensures ps == projects
    {
      ps := projects;
    }

    /** All employees in insertion order. */
    method ListEmployees() returns (es: seq<Employee>)
      ensures es == employees
    {
      es := employees;
    }

    /** Creates a project under the fresh identifier `id`, unless a field is blank or the client
        already has a project of that name; a refused request changes nothing. */
    method CreateProject(id: string, name: Option<string>, client: Option<string>)
      returns (r: Result<Project>)
      modifies this
      ensures (Blank(name) || Blank(client)) <==> r == Err(EmptyField)
      ensures r == Err(NamingError) <==>
        !Blank(name) && !Blank(client) && IsDuplicate(old(projects), client.value, name.value)
      ensures r.Ok? <==>
        !Blank(name) && !Blank(client) && !IsDuplicate(old(projects), client.value, name.value)
      ensures r.Ok? ==>
        r.value == Project(id, name.value, client.value) && projects == old(projects) + [r.value]
      ensures r.Err? ==> projects == old(projects)
      ensures employees == old(employees) && timeEntries == old(timeEntries)
      ensures ProjectsUnique(old(projects)) ==> ProjectsUnique(projects)
      ensures old(Valid()) ==> Valid()
    {
      if Blank(name) || Blank(client) {
        r := Err(EmptyField);
        return;
      }
      var created := Project(id, name.value, client.value);
      if IsDuplicate(projects, client.value, name.value) {
        r := Err(NamingError);
      } else {
        if ProjectsUnique(projects) {
          AppendKeepsUniqueIff(projects, created);
        }
        projects := projects + [created];
        r := Ok(created);
      }
    }

    /** Creates an employee under the fresh identifier `id`; nothing is validated. */
    method CreateEmployee(id: string, firstName: string, lastName: string, email: string)
      returns (e: Employee)
      modifies this
      ensures e == Employee(id, firstName, lastName, email)
      ensures employees == old(employees) + [e]
      ensures projects == old(projects) && timeEntries == old(timeEntries)
      ensures old(Valid()) ==> Valid()
    {
      e := Employee(id, firstName, lastName, email);
      employees := employees + [e];
    }

    /** Logs `minutes` for `employeeId` on `today` under the fresh identifier `id`, unless the
        minutes already logged today by anyone, plus these, would exceed the cap. Neither id is
        checked against the stored employees or projects. */
    method CreateTimeEntry(
      id: string, employeeId: string, projectId: string, task: string, minutes: int, today: Date)
      returns (r: Result<TimeEntry>)
      modifies this
      ensures r.Ok? <==> Admits(old(timeEntries), today, minutes)
      ensures r.Ok? ==>
        r.value == TimeEntry(id, employeeId, projectId, task, minutes, today) &&
        timeEntries == old(timeEntries) + [r.value]
      ensures r.Err? ==> r.error == DailyLimit && timeEntries == old(timeEntries)
      ensures projects == old(projects) && employees == old(employees)
      ensures WithinDailyCap(old(timeEntries)) ==> WithinDailyCap(timeEntries)
      ensures old(Valid()) ==> Valid()
    {
      var entry := TimeEntry(id, employeeId, projectId, task, minutes, today);
      var logged := DayTotal(timeEntries, today);
      if logged + minutes <= MaxDailyMinutes {
        if WithinDailyCap(timeEntries) {
          LogPreservesCap(timeEntries, entry);
        }
        timeEntries := timeEntries + [entry];
        r := Ok(entry);
      } else {
        r := Err(DailyLimit);
      }
    }

    /** The time entries of one employee in stored order, or not-found when there are none. */
    method TimeEntriesFor(employeeId: string) returns (r: Result<seq<TimeEntry>>)
      ensures r.Ok? <==> exists e :: e in timeEntries && e.employeeId == employeeId
      ensures r.Ok? ==> r.value == EntriesOf(timeEntries, employeeId) && r.value != []
      ensures r.Err? ==> r.error == EmployeeNotFound
    {
      var found := EntriesOf(timeEntries, employeeId);
      FilterEmptyIff(timeEntries, ByEmployee(employeeId));
      if |found| > 0 {
        r := Ok(found);
      } else {
        r := Err(EmployeeNotFound);
      }
    }
  }

  /** A client of the service: a full day blocks everyone, yesterday's entries do not count. */
  method DailyCapScenario(today: Date, yesterday: Date)
    requires !SameDay(yesterday, today)
  {
    var data := new Dataset.Load(None);
    assert DayTotal([], yesterday) == 0;
    var first := data.CreateTimeEntry("t0", "ada", "p1", "review", 480, yesterday);
    assert first.Ok?;
    ghost var logged := data.timeEntries;
    assert logged == [] + [first.value];
    DayTotalAppend([], first.value, today);

    var full := data.CreateTimeEntry("t1", "ada", "p1", "build", 480, today);
    assert full.Ok?;
    FullDayBlocksFurther(logged, full.value, today);

    var more := data.CreateTimeEntry("t2", "bob", "p1", "build", 1, today);
    assert more == Err(DailyLimit);
  }

  /** A client of the service: the employee query before and after an entry is logged. */
  method EmployeeQueryScenario(today: Date)
  {
    var data := new Dataset.Load(None);
    var none := data.TimeEntriesFor("ada");
    assert none == Err(EmployeeNotFound);

    assert DayTotal([], today) == 0;
    var logged := data.CreateTimeEntry("t0", "ada", "p1", "review", 30, today);
    assert logged.Ok? && data.timeEntries == [] + [logged.value];
    EntriesOfAppend([], logged.value, "ada");
    assert EntriesOf([], "ada") == [];
    assert EntriesOf(data.timeEntries, "ada") == [logged.value];

    var found := data.TimeEntriesFor("ada");
    assert found == Ok([logged.value]);
  }
}
