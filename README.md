# Time-tracking record service, modelled in Dafny

The service keeps one dataset of three ordered sequences: projects, employees and time entries.
Each write handler loads the dataset, runs its checks, if any, appends to one sequence and saves
the whole dataset back. This project models that read-check-append logic and proves what the checks protect.

- `records.dfy` (module `Records`): the entities `Project`, `Employee` and `TimeEntry`, the file
  layout `Snapshot`, the refusals (`Failure`) and the 480-minute cap.
- `lists.dfy` (module `Lists`): `Filter`, the order-preserving selection that every check is built
  on, with its characterising lemmas.
- `validator.dfy` (module `Validator`): the pure checks. These are the duplicate-project check
  `IsDuplicate`, the day total `DayTotal` with the eight-hour rule `Admits`, and the employee query
  `EntriesOf`. The module also holds the invariants `ProjectsUnique` and `WithinDailyCap`, and the
  lemmas showing that the handlers keep those invariants.
- `record_service.dfy` (module `RecordService`): the class `Dataset`, with the three sequences as
  fields. Each handler is a method. Refusals are `Err` values that leave the dataset unchanged.
  `DailyCapScenario` and `EmployeeQueryScenario` are clients that use only the method contracts.

Identifiers from the random generator are passed in as the `id` parameter. The current day is
passed as a `Date(year, month, day)`. A request field that may be absent is an `Option<string>`.

**The code and the intended rule disagree on the daily cap.** The intended rule is at most 480
minutes per employee per calendar day. The handler sums the minutes of *every* entry dated today,
whatever its employee (src/server.ts:122-126). The model follows the code. `DayTotal` and
`Admits` are therefore not per employee. `EmployeeDayTotal` gives the per-employee total of the
intended rule so the two rules can be compared:
- `EmployeeTotalWithinDayTotal` shows that the enforced rule is at least as strict as the intended
  one while no entry has negative minutes.
- `CapSharedAcrossEmployees` shows that once one employee logs eight hours on an empty day, no
  one can log another minute, although every other employee's own total is unchanged.
- `NegativeMinutesExceedEmployeeCap` shows that the code does not range-check `minutes`. A
  negative entry lets another employee go past eight hours.

## Model

| member | source | states |
|---|---|---|
| `RecordService.Blank` | src/server.ts:68 | a required project field is refused when it is absent or the empty string; its use is stated by the `EmptyField` clause of `Dataset.CreateProject` |
| `Validator.IsDuplicate` | src/server.ts:75-77 | the duplicate check: the client's projects, narrowed to those with the requested name, are not empty; its meaning is fixed by `IsDuplicateIff` |
| `Validator.SumMinutes` | src/server.ts:124 | the left-to-right sum of `minutes`; its meaning is fixed by `SumAppend` |
| `Validator.DayTotal` | src/server.ts:122-124 | the minutes of every entry dated on a given calendar day, whoever logged them; its meaning is fixed by `DayTotalAppend` |
| `Validator.Admits` | src/server.ts:126 | the eight-hour rule: today's total plus the new minutes is at most 480; its meaning is fixed by `AdmittedEntryWithinCap`, `LogPreservesCap` and `FullDayBlocksFurther` |
| `Validator.EntriesOf` | src/server.ts:140 | the employee filter: no longer than the stored entries and every entry in it has the requested employee id; `EntriesOfExact` and `EntriesOfAppend` fix it completely |
| `Lists.Filter` | src/server.ts:140 | the selection is no longer than the input and every kept element satisfies the predicate |
| `Lists.FilterAppend` | src/server.ts:140 | filtering distributes over concatenation, so kept elements stay in stored order |
| `Lists.FilterMultiplicity` | src/server.ts:140 | an element satisfying the predicate is kept exactly as often as it is stored; any other element is dropped |
| `Lists.FilterMembership` | src/server.ts:75-76 | an element is selected iff it is stored and satisfies the predicate |
| `Lists.FilterEmptyIff` | src/server.ts:142 | the selection is empty iff no stored element satisfies the predicate |
| `Validator.IsDuplicateIff` | src/server.ts:75-77 | the client-then-name filter is non-empty iff some stored project has both that client and that name (case-sensitive) |
| `Validator.AppendKeepsUniqueIff` | src/server.ts:75-83 | on projects with unique (client, name) pairs, appending a project keeps them unique iff the duplicate check passes it |
| `Validator.CreatedProjectListedOnce` | src/server.ts:81 | a project that passed the duplicate check occurs exactly once in the list after it is appended |
| `Validator.SumAppend` | src/server.ts:124 | the running sum of minutes over two consecutive runs of entries is the sum of their sums |
| `Validator.DayTotalAppend` | src/server.ts:122-127 | appending an entry raises the total of its own calendar day by its minutes and leaves every other day's total unchanged |
| `Validator.AdmittedEntryWithinCap` | src/server.ts:122-127 | on any stored entries, an entry the eight-hour rule admits keeps its own day's total at or below 480 and leaves every other day's total unchanged |
| `Validator.LogPreservesCap` | src/server.ts:122-127 | an entry the eight-hour rule admits preserves "every day's total is at most 480" |
| `Validator.FullDayBlocksFurther` | src/server.ts:126-131 | with today's total at zero a 480-minute entry is admitted, and after it a 1-minute entry is refused |
| `Validator.OtherDayIndependent` | src/server.ts:122 | an entry dated on another calendar day does not change whether a request today is admitted |
| `Validator.EntriesOfExact` | src/server.ts:140-146 | the employee query holds exactly the stored entries with that id, with their multiplicity, and is empty iff no entry has that id |
| `Validator.EntriesOfAppend` | src/server.ts:140 | an appended entry comes last in its own employee's query result and does not appear in anyone else's |
| `Validator.SumFilterBound` | src/server.ts:122-124 | with no negative minutes, the minutes of a selection of entries sum to at most the minutes of all of them |
| `Validator.EmployeeTotalWithinDayTotal` | src/server.ts:122-126 | with no negative minutes, one employee's minutes on a day are at most the all-employee total the rule checks |
| `Validator.CapSharedAcrossEmployees` | src/server.ts:122-126 | on any entries with today's total at zero, after one employee logs 480 minutes no one may log a single minute more, while every other employee's own total for today is unchanged |
| `Validator.NegativeMinutesExceedEmployeeCap` | src/server.ts:104-127 | an entry of -100 minutes lets a second employee log 580 minutes on the same day |
| `RecordService.Dataset.Load` | src/server.ts:39-51 | a missing, unreadable or unparsable file gives the empty dataset, which satisfies both invariants; a file that parses to the three arrays gives them unchanged |
| `RecordService.Dataset.ListProjects` | src/server.ts:59-63 | returns the stored projects, in insertion order |
| `RecordService.Dataset.ListEmployees` | src/server.ts:89-93 | returns the stored employees, in insertion order |
| `RecordService.Dataset.CreateProject` | src/server.ts:66-86 | refuses with EmptyField iff name or client is missing or empty. Otherwise refuses with NamingError iff the client already has a project of that name. Otherwise appends exactly one project `{id, name, client}` at the end. Employees and time entries never change, a refusal leaves projects unchanged, and (client, name) uniqueness is preserved whatever the time entries hold |
| `RecordService.Dataset.CreateEmployee` | src/server.ts:95-102 | always appends exactly one employee with the given fields; projects and time entries are unchanged and both invariants are preserved |
| `RecordService.Dataset.CreateTimeEntry` | src/server.ts:104-133 | succeeds iff today's total over all employees plus the new minutes is at most 480. It then appends exactly one entry dated today with the given fields; otherwise it refuses with DailyLimit and changes nothing. "Every day's total is at most 480" is preserved whatever the projects hold |
| `RecordService.Dataset.TimeEntriesFor` | src/server.ts:136-147 | returns the employee's entries in stored order, non-empty, iff some stored entry has that employee id; otherwise reports EmployeeNotFound |

## Left out

- HTTP routing, request-body destructuring, status codes and response texts are not modelled. Each outcome is a `Result` value with a `Failure` kind.
- Reading and writing the data file, and the JSON encoding, are not modelled. `Dataset.Load` takes the parsed file content as an `Option<Snapshot>`, where `None` stands for a missing, unreadable or unparsable file. Saving is not modelled: a saved dataset is the object's three fields.
- Dataset.Load: assumes a file that parses holds the three arrays. A file that parses to `null` makes every handler that loads it throw. A file that parses to `{}` makes the three write handlers and the employee query throw (for example at `data.projects.filter`, src/server.ts:75), while the two list handlers reply with an empty body. Neither case is modelled.
- The random identifier generator is not modelled. Every create method takes the new identifier as its `id` parameter, and the model does not assume identifiers are unique.
- The JavaScript clock, `Date.toString()` and the local-time parsing of stored dates are not modelled. The caller supplies "today" as a `Date(year, month, day)`. Stored entries carry that triple, so comparing dates compares the three components.
- The two loads in the time-entry handler are treated as one snapshot. Races between unlocked load/save pairs of concurrent requests, including lost updates, are not modelled.
- Dynamic typing quirks are not modelled. `minutes` is an integer and never a string that `+` would concatenate. Employee fields are strings and are never absent.
- Blank: models `name` and `client` as optional strings only. JavaScript's `!` test at src/server.ts:68 also refuses `0`, `false`, `null` and `NaN`, and lets any other truthy non-string value through. Neither kind of value is modelled.
- CreateTimeEntry: `minutes` is an unbounded integer. In the source it is a JavaScript number, so it may be fractional, and the sum at src/server.ts:124 is computed in floating point.
- CreateTimeEntry: an absent `minutes` is not modelled. In the source `allMinutes + minutes` is then `NaN`, and the request is always refused with the eight-hour reply (src/server.ts:126, 131).
- CreateTimeEntry: `employeeId`, `projectId` and `task` are always strings here. In the source they may be absent, are then stored as undefined, and are dropped when the dataset is serialised.
- Process start-up is not modelled. This covers environment loading, the port and the listener.
