/** The checks the write handlers run against a loaded dataset, and the facts that make them
    sufficient: project names are unique per client, and no calendar day holds more than
    `MaxDailyMinutes` logged minutes. */
module Validator {
  import opened Records
  import opened Lists

  // ---------------------------------------------------------------------------------------------
  // Projects

  function ForClient(client: string): Project -> bool { (p: Project) => p.client == client }

  function Named(name: string): Project -> bool { (p: Project) => p.name == name }

  /** The duplicate check of project creation: the client's projects, narrowed to those with the
      requested name, are not empty. Comparison is exact, so case-sensitive. */
  predicate IsDuplicate(projects: seq<Project>, client: string, name: string)
  {
    |Filter(Filter(projects, ForClient(client)), Named(name))| > 0
  }

  /** No two stored projects share the same (client, name) pair. */
  ghost predicate ProjectsUnique(projects: seq<Project>)
  {
    forall i, j ::
      0 <= i < |projects| && 0 <= j < |projects| &&
      projects[i].client == projects[j].client && projects[i].name == projects[j].name
      ==> i == j
  }

  /** The two-stage filter finds a duplicate exactly when some stored project has both the
      client and the name. */
  lemma IsDuplicateIff(projects: seq<Project>, client: string, name: string)
    ensures IsDuplicate(projects, client, name) <==>
      exists p :: p in projects && p.client == client && p.name == name
  {
    var byClient := Filter(projects, ForClient(client));
    var sameName := Filter(byClient, Named(name));
    if |sameName| > 0 {
      FilterMembership(byClient, Named(name), sameName[0]);
      FilterMembership(projects, ForClient(client), sameName[0]);
    }
    forall p | p in projects && p.client == client && p.name == name
      ensures |sameName| > 0
    {
      FilterMembership(projects, ForClient(client), p);
      FilterMembership(byClient, Named(name), p);
    }
  }

  /** On a dataset whose projects are unique, appending a project keeps them unique exactly when
      the duplicate check lets it through. */
  lemma AppendKeepsUniqueIff(projects: seq<Project>, p: Project)
    requires ProjectsUnique(projects)
    ensures ProjectsUnique(projects + [p]) <==> !IsDuplicate(projects, p.client, p.name)
  {
    IsDuplicateIff(projects, p.client, p.name);
    var ps := projects + [p];
    if IsDuplicate(projects, p.client, p.name) {
      var q :| q in projects && q.client == p.client && q.name == p.name;
      var i :| 0 <= i < |projects| && projects[i] == q;
      assert ps[i] == q && ps[|projects|] == p;
    }
  }

  /** A project that passed the duplicate check occurs exactly once in the list after it is
      appended. */
  lemma CreatedProjectListedOnce(projects: seq<Project>, p: Project)
    requires !IsDuplicate(projects, p.client, p.name)
    ensures multiset(projects + [p])[p] == 1
  {
    IsDuplicateIff(projects, p.client, p.name);
    assert p !in projects;
  }

  // ---------------------------------------------------------------------------------------------
  // Time entries

  /** Component-wise comparison of two calendar days. */
  predicate SameDay(a: Date, b: Date)
  {
    a.day == b.day && a.month == b.month && a.year == b.year
  }

  function OnDay(d: Date): TimeEntry -> bool { (e: TimeEntry) => SameDay(e.date, d) }

  function ByEmployee(employeeId: string): TimeEntry -> bool { (e: TimeEntry) => e.employeeId == employeeId }

  /** Running total of `minutes`, accumulated from the first entry to the last. */
  function SumMinutes(entries: seq<TimeEntry>): int
  {
    if entries == [] then 0
    else SumMinutes(entries[..|entries| - 1]) + entries[|entries| - 1].minutes
  }

  /** Minutes logged on day `d`, over the entries of every employee. */
  function DayTotal(entries: seq<TimeEntry>, d: Date): int
  {
    SumMinutes(Filter(entries, OnDay(d)))
  }

  /** The eight-hour rule as the time-entry handler applies it. */
  predicate Admits(entries: seq<TimeEntry>, today: Date, minutes: int)
  {
    DayTotal(entries, today) + minutes <= MaxDailyMinutes
  }

  /** No calendar day holds more than the cap. */
  ghost predicate WithinDailyCap(entries: seq<TimeEntry>)
  {
    forall d :: DayTotal(entries, d) <= MaxDailyMinutes
  }

  /** The time entries of one employee, in stored order. */
  function EntriesOf(entries: seq<TimeEntry>, employeeId: string): (r: seq<TimeEntry>)
    ensures |r| <= |entries|
    ensures forall i :: 0 <= i < |r| ==> r[i].employeeId == employeeId
  {
    Filter(entries, ByEmployee(employeeId))
  }

  /** The intended rule's total (at most 480 minutes per employee per calendar day): minutes one
      employee logged on day `d`. The handler does not compute it; it serves to compare the
      enforced rule with the intended one. */
  function EmployeeDayTotal(entries: seq<TimeEntry>, employeeId: string, d: Date): int
  {
    SumMinutes(Filter(Filter(entries, OnDay(d)), ByEmployee(employeeId)))
  }

  lemma {:induction false} SumAppend(a: seq<TimeEntry>, b: seq<TimeEntry>)
    ensures SumMinutes(a + b) == SumMinutes(a) + SumMinutes(b)
  {
    if b != [] {
      var last := b[|b| - 1];
      var front := b[..|b| - 1];
      assert (a + b)[..|a + b| - 1] == a + front;
      assert (a + b)[|a + b| - 1] == last;
      SumAppend(a, front);
    } else {
      assert a + b == a;
    }
  }

  /** Appending an entry changes the total of its own day by its minutes and no other day's. */
  lemma DayTotalAppend(entries: seq<TimeEntry>, e: TimeEntry, d: Date)
    ensures DayTotal(entries + [e], d) ==
      DayTotal(entries, d) + (if SameDay(e.date, d) then e.minutes else 0)
  {
    FilterAppend(entries, [e], OnDay(d));
    assert Filter([e], OnDay(d)) == if SameDay(e.date, d) then [e] else [] by {
      assert [e][1..] == [];
    }
    SumAppend(Filter(entries, OnDay(d)), Filter([e], OnDay(d)));
    assert SumMinutes([e]) == e.minutes by {
      assert [e][..0] == [];
    }
  }

  /** An entry the eight-hour rule admits ends its own day at most at the cap and leaves every
      other day's total unchanged, whatever the stored entries are. */
  lemma AdmittedEntryWithinCap(entries: seq<TimeEntry>, e: TimeEntry)
    requires Admits(entries, e.date, e.minutes)
    ensures DayTotal(entries + [e], e.date) <= MaxDailyMinutes
    ensures forall d :: !SameDay(e.date, d) ==> DayTotal(entries + [e], d) == DayTotal(entries, d)
  {
    DayTotalAppend(entries, e, e.date);
    forall d | !SameDay(e.date, d)
      ensures DayTotal(entries + [e], d) == DayTotal(entries, d)
    {
      DayTotalAppend(entries, e, d);
    }
  }

  /** An entry the eight-hour rule admits keeps every day within the cap. */
  lemma LogPreservesCap(entries: seq<TimeEntry>, e: TimeEntry)
    requires WithinDailyCap(entries)
    requires Admits(entries, e.date, e.minutes)
    ensures WithinDailyCap(entries + [e])
  {
    AdmittedEntryWithinCap(entries, e);
    forall d
      ensures DayTotal(entries + [e], d) <= MaxDailyMinutes
    {
      if !SameDay(e.date, d) {
        assert DayTotal(entries + [e], d) == DayTotal(entries, d);
      } else {
        assert d == e.date;
      }
    }
  }

  /** With today's total at zero, a full eight hours is admitted, and after it not one more minute. */
  lemma FullDayBlocksFurther(entries: seq<TimeEntry>, e: TimeEntry, today: Date)
    requires DayTotal(entries, today) == 0
    requires e.date == today && e.minutes == MaxDailyMinutes
    ensures Admits(entries, today, e.minutes)
    ensures !Admits(entries + [e], today, 1)
  {
    DayTotalAppend(entries, e, today);
  }

  /** An entry on another day does not change what is admitted today. */
  lemma OtherDayIndependent(entries: seq<TimeEntry>, e: TimeEntry, today: Date, minutes: int)
    requires !SameDay(e.date, today)
    ensures Admits(entries + [e], today, minutes) <==> Admits(entries, today, minutes)
  {
    DayTotalAppend(entries, e, today);
  }

  /** The employee query returns exactly the stored entries with that id, each as often as it
      is stored, and nothing when none has it. */
  lemma EntriesOfExact(entries: seq<TimeEntry>, employeeId: string, e: TimeEntry)
    ensures e in EntriesOf(entries, employeeId) <==> e in entries && e.employeeId == employeeId
    ensures multiset(EntriesOf(entries, employeeId))[e] ==
      if e.employeeId == employeeId then multiset(entries)[e] else 0
    ensures EntriesOf(entries, employeeId) == [] <==>
      forall x :: x in entries ==> x.employeeId != employeeId
  {
    FilterMultiplicity(entries, ByEmployee(employeeId), e);
    FilterMembership(entries, ByEmployee(employeeId), e);
    FilterEmptyIff(entries, ByEmployee(employeeId));
  }

  /** The employee query keeps stored order: an appended entry comes last in its owner's list. */
  lemma EntriesOfAppend(entries: seq<TimeEntry>, e: TimeEntry, employeeId: string)
    ensures EntriesOf(entries + [e], employeeId) ==
      EntriesOf(entries, employeeId) + (if e.employeeId == employeeId then [e] else [])
  {
    FilterAppend(entries, [e], ByEmployee(employeeId));
    assert [e][1..] == [];
  }

  /** With minutes never negative, the selection of some entries sums to no more than all. */
  lemma {:induction false} SumFilterBound(entries: seq<TimeEntry>, p: TimeEntry -> bool)
    requires forall e :: e in entries ==> e.minutes >= 0
    ensures SumMinutes(Filter(entries, p)) <= SumMinutes(entries)
  {
    if entries != [] {
      var front := entries[..|entries| - 1];
      var last := entries[|entries| - 1];
      assert entries == front + [last];
      SumFilterBound(front, p);
      FilterAppend(front, [last], p);
      assert [last][1..] == [];
      SumAppend(Filter(front, p), Filter([last], p));
      assert SumMinutes([last]) == last.minutes by {
        assert [last][..0] == [];
      }
    }
  }

  /** The enforced rule is at least as strict as the per-employee rule while no entry has
      negative minutes: each employee's total for a day is bounded by the day's total. */
  lemma EmployeeTotalWithinDayTotal(entries: seq<TimeEntry>, employeeId: string, d: Date)
    requires forall e :: e in entries ==> e.minutes >= 0
    ensures EmployeeDayTotal(entries, employeeId, d) <= DayTotal(entries, d)
  {
    var today := Filter(entries, OnDay(d));
    forall e | e in today
      ensures e.minutes >= 0
    {
      FilterMembership(entries, OnDay(d), e);
    }
    SumFilterBound(today, ByEmployee(employeeId));
  }

  /** The cap is shared by all employees: once one employee has logged eight hours on a day
      whose total was zero, no one can log a single minute more, although every other employee's
      own total for the day is unchanged. */
  lemma CapSharedAcrossEmployees(entries: seq<TimeEntry>, e: TimeEntry, other: string, today: Date)
    requires DayTotal(entries, today) == 0
    requires e.date == today && e.minutes == MaxDailyMinutes && e.employeeId != other
    ensures !Admits(entries + [e], today, 1)
    ensures EmployeeDayTotal(entries + [e], other, today) == EmployeeDayTotal(entries, other, today)
  {
    DayTotalAppend(entries, e, today);
    var sameDay := Filter(entries, OnDay(today));
    FilterAppend(entries, [e], OnDay(today));
    assert [e][1..] == [];
    assert Filter(entries + [e], OnDay(today)) == sameDay + [e];
    FilterAppend(sameDay, [e], ByEmployee(other));
    assert Filter(sameDay + [e], ByEmployee(other)) == Filter(sameDay, ByEmployee(other)) + [];
    assert Filter(sameDay, ByEmployee(other)) + [] == Filter(sameDay, ByEmployee(other));
  }

  /** Because minutes are not range-checked, a negative entry by one employee lets another
      employee log more than eight hours on the same day. */
  lemma NegativeMinutesExceedEmployeeCap(a: TimeEntry, b: TimeEntry, today: Date)
    requires a.date == today && b.date == today
    requires a.employeeId != b.employeeId
    requires a.minutes == -100 && b.minutes == MaxDailyMinutes + 100
    ensures Admits([a], today, b.minutes)
    ensures EmployeeDayTotal([a, b], b.employeeId, today) > MaxDailyMinutes
  {
    DayTotalAppend([], a, today);
    assert [] + [a] == [a];
    var both := [a, b];
    assert both == [a] + [b];
    FilterAppend([a], [b], OnDay(today));
    assert [a][1..] == [] && [b][1..] == [];
    assert Filter(both, OnDay(today)) == both;
    FilterAppend([a], [b], ByEmployee(b.employeeId));
    assert Filter(both, ByEmployee(b.employeeId)) == [b];
    assert SumMinutes([b]) == b.minutes by {
      assert [b][..0] == [];
    }
  }
}
