/** The scheduler's job table, and the engine and handle operations on it.

    The table is the SQLite table `jobs`, one map entry per row.  A column that holds an instant holds
    its text (`Timestamp.ToRfc3339`); the queries compare the text. */
module SchedulerEngine {
  import opened Prelude
  import opened Schedule
  import Timestamp

  type JobId = string

  datatype Status = Pending | Running | Completed | Failed | Missed

  /** A schedule column: JSON that decodes, or JSON that does not. */
  datatype Stored = Decoded(schedule: Schedule) | Undecodable(json: string)

  datatype Row = Row(
    name: string, schedule: Stored, action: string, status: Status,
    lastRun: Option<Instant>, nextRun: Option<Instant>,
    runCount: nat, maxRuns: Option<nat>, createdAt: Instant, updatedAt: Instant)

  type Table = map<JobId, Row>

  /** The columns a tick reads of a due row. */
  datatype DueRow = DueRow(
    id: JobId, name: string, schedule: Stored, action: string, runCount: nat, maxRuns: Option<nat>)

  /** What is sent to the delivery router when a job fires. */
  datatype FiredJob = FiredJob(
    id: JobId, name: string, schedule: Schedule, action: string,
    lastRun: Instant, nextRun: Option<Instant>, runCount: nat, maxRuns: Option<nat>)

  /** `Panic` stands for the panic of an addition that leaves the date library's range. */
  datatype Error = JobNotFound(id: JobId) | DuplicateKey(id: JobId) | Panic

  // ---------------------------------------------------------------------
  // One row at a time
  // ---------------------------------------------------------------------

  /** The due query's test, `next_run <= now`. */
  predicate Due(row: Row, now: Instant) {
    row.status == Pending && row.nextRun.Some? && !Timestamp.TextBefore(now, row.nextRun.value)
  }

  /** The startup query's test, `next_run < now`. */
  predicate Overdue(row: Row, now: Instant) {
    row.status == Pending && row.nextRun.Some? && Timestamp.TextBefore(row.nextRun.value, now)
  }

  /** The columns of a row as the due query returns them. */
  function Columns(id: JobId, row: Row): DueRow {
    DueRow(id, row.name, row.schedule, row.action, row.runCount, row.maxRuns)
  }

  function ToOption(next: NextRun): Option<Instant> {
    if next.At? then Some(next.at) else None
  }

  /** The next run written by a fire: none once `maxRuns` is reached or the schedule is exhausted. */
  function NextAfterFire(schedule: Schedule, newCount: nat, maxRuns: Option<nat>, now: Instant): Option<Instant> {
    if maxRuns.Some? && newCount >= maxRuns.value then None else ToOption(ComputeNextRun(schedule, now))
  }

  /** The update one fire makes to a row, computed from the columns read earlier. */
  function FireRow(row: Row, due: DueRow, now: Instant): Row
    requires due.schedule.Decoded?
  {
    var next := NextAfterFire(due.schedule.schedule, due.runCount + 1, due.maxRuns, now);
    row.(status := if next.None? then Completed else Pending,
         lastRun := Some(now), nextRun := next, runCount := due.runCount + 1, updatedAt := now)
  }

  /** Whether firing a row panics: its next run is computed, and cannot be held. */
  predicate Panics(due: DueRow, now: Instant) {
    due.schedule.Decoded? && !(due.maxRuns.Some? && due.runCount + 1 >= due.maxRuns.value) &&
    ComputeNextRun(due.schedule.schedule, now).Overflow?
  }

  function Fired(due: DueRow, now: Instant): FiredJob
    requires due.schedule.Decoded?
  {
    var schedule := due.schedule.schedule;
    FiredJob(due.id, due.name, schedule, due.action, now,
             NextAfterFire(schedule, due.runCount + 1, due.maxRuns, now), due.runCount + 1, due.maxRuns)
  }

  function NewRow(name: string, schedule: Schedule, action: string, now: Instant): Row {
    Row(name, Decoded(schedule), action, Pending, None, ToOption(ComputeNextRun(schedule, now)), 0, None, now, now)
  }

  // ---------------------------------------------------------------------
  // What firing is to do, without reference to how it does it
  // ---------------------------------------------------------------------

  /** Whether one more firing reaches the limit. */
  predicate LastRun(runCount: nat, maxRuns: Option<nat>) { maxRuns.Some? && runCount + 1 >= maxRuns.value }

  /** `row` is `was` after firing at `now`: counted and dated, everything descriptive as it was, pending
      with the next run its schedule means, and completed exactly when it has reached its limit or its
      schedule means none. */
  ghost predicate GoesOn(was: Row, now: Instant, row: Row) {
    row.name == was.name && row.schedule == was.schedule && row.action == was.action &&
    row.maxRuns == was.maxRuns && row.createdAt == was.createdAt &&
    row.lastRun == Some(now) && row.updatedAt == now && row.runCount == was.runCount + 1 &&
    row.status == (if row.nextRun.Some? then Pending else Completed) &&
    (if LastRun(was.runCount, was.maxRuns) then row.nextRun.None?
     else was.schedule.Decoded? && IsNext(was.schedule.schedule, now, row.nextRun))
  }

  /** The job sent tells the row as it is after firing. */
  predicate Reports(job: FiredJob, id: JobId, now: Instant, row: Row) {
    row.schedule.Decoded? &&
    job == FiredJob(id, row.name, row.schedule.schedule, row.action, now, row.nextRun, row.runCount, row.maxRuns)
  }

  /** A row that was just added. */
  ghost predicate IsNewRow(row: Row, name: string, schedule: Schedule, action: string, now: Instant) {
    IsNext(schedule, now, row.nextRun) &&
    row == Row(name, Decoded(schedule), action, Pending, None, row.nextRun, 0, None, now, now)
  }

  lemma FiredRowGoesOn(id: JobId, row: Row, now: Instant)
    requires row.schedule.Decoded? && !Panics(Columns(id, row), now)
    ensures GoesOn(row, now, FireRow(row, Columns(id, row), now))
    ensures Reports(Fired(Columns(id, row), now), id, now, FireRow(row, Columns(id, row), now))
  {
    if !LastRun(row.runCount, row.maxRuns) { NextRunIsNext(row.schedule.schedule, now); }
    hide ComputeNextRun, IsNext;
  }

  lemma AddedRowIsNew(name: string, schedule: Schedule, action: string, now: Instant)
    requires !ComputeNextRun(schedule, now).Overflow?
    ensures IsNewRow(NewRow(name, schedule, action, now), name, schedule, action, now)
  {
    NextRunIsNext(schedule, now);
    hide ComputeNextRun, IsNext;
  }

  /** With the clock in the years 0 to 9999 a row panics exactly when it is due to run again and is an
      interval whose end the date library cannot hold. */
  lemma PanicsInTime(id: JobId, row: Row, now: Instant)
    requires Timestamp.FourDigitYear(now)
    ensures Panics(Columns(id, row), now) <==>
            row.schedule.Decoded? && !LastRun(row.runCount, row.maxRuns) && row.schedule.schedule.Interval? &&
            forall t :: IsNext(row.schedule.schedule, now, Some(t)) ==> !Representable(t)
  {
    Timestamp.FourDigitYears(now);
    if row.schedule.Decoded? {
      var schedule := row.schedule.schedule;
      if schedule.Interval? {
        IntervalOverflowsExactly(schedule.everySecs, now);
        assert IsNext(schedule, now, Some(now + AsI64(schedule.everySecs) * SECOND));
      } else if !schedule.Cron? {
        LaterClockHasNext(schedule, now);
      }
    }
  }

  // ---------------------------------------------------------------------
  // The whole table
  // ---------------------------------------------------------------------

  predicate Fires(row: Row, now: Instant) { Due(row, now) && row.schedule.Decoded? }

  /** A tick, as one function of the table: every due row whose schedule decodes is fired,
      every other row is untouched. */
  function TickTable(jobs: Table, now: Instant): Table {
    map id | id in jobs :: if Fires(jobs[id], now) then FireRow(jobs[id], Columns(id, jobs[id]), now) else jobs[id]
  }

  /** Startup: an overdue row is marked missed. */
  function MarkMissed(jobs: Table, now: Instant): Table {
    map id | id in jobs ::
      if Overdue(jobs[id], now) then jobs[id].(status := Missed, updatedAt := now) else jobs[id]
  }

  /** The update of one due row by its id: no row, or an undecodable schedule, changes nothing. */
  function FireOne(jobs: Table, due: DueRow, now: Instant): Table {
    if due.schedule.Decoded? && due.id in jobs then jobs[due.id := FireRow(jobs[due.id], due, now)] else jobs
  }

  /** The updates of a list of due rows, first to last. */
  function FireAll(jobs: Table, due: seq<DueRow>, now: Instant): Table {
    if due == [] then jobs
    else FireOne(FireAll(jobs, due[..|due| - 1], now), due[|due| - 1], now)
  }

  /** The jobs sent for a list of due rows. */
  function FiredJobs(due: seq<DueRow>, now: Instant): seq<FiredJob> {
    if due == [] then []
    else FiredJobs(due[..|due| - 1], now) +
         (var last := due[|due| - 1]; if last.schedule.Decoded? then [Fired(last, now)] else [])
  }

  /** `due` is a result of the due query: every due row of the table, once. */
  ghost predicate IsDueList(jobs: Table, due: seq<DueRow>, now: Instant) {
    (forall i, j :: 0 <= i < j < |due| ==> due[i].id != due[j].id) &&
    (forall i :: 0 <= i < |due| ==> IsDueRow(jobs, due[i], now)) &&
    (forall id :: id in jobs && Due(jobs[id], now) ==> Columns(id, jobs[id]) in due)
  }

  predicate IsDueRow(jobs: Table, row: DueRow, now: Instant) {
    row.id in jobs && Due(jobs[row.id], now) && row == Columns(row.id, jobs[row.id])
  }

  lemma {:induction false} FireAllRow(jobs: Table, due: seq<DueRow>, now: Instant, id: JobId)
    requires forall i, j :: 0 <= i < j < |due| ==> due[i].id != due[j].id
    requires forall i :: 0 <= i < |due| ==> IsDueRow(jobs, due[i], now)
    requires id in jobs
    ensures FireAll(jobs, due, now).Keys == jobs.Keys
    ensures FireAll(jobs, due, now)[id] ==
            if Columns(id, jobs[id]) in due && jobs[id].schedule.Decoded?
            then FireRow(jobs[id], Columns(id, jobs[id]), now) else jobs[id]
  {
    hide Due;
    if due != [] {
      var (front, last) := (due[..|due| - 1], due[|due| - 1]);
      FireAllRow(jobs, front, now, id);
      FireAllRow(jobs, front, now, last.id);
      assert due == front + [last];
      assert Columns(last.id, jobs[last.id]) !in front;
    }
  }

  /** The updates of a due list, taken one row at a time in any order, are the tick. */
  lemma FireAllIsTick(jobs: Table, due: seq<DueRow>, now: Instant)
    requires IsDueList(jobs, due, now)
    ensures FireAll(jobs, due, now) == TickTable(jobs, now)
  {
    hide Due;
    var all := FireAll(jobs, due, now);
    if jobs == map[] {
      assert due == [];
    } else {
      var some :| some in jobs;
      FireAllRow(jobs, due, now, some);
    }
    forall id | id in jobs ensures all[id] == TickTable(jobs, now)[id] {
      FireAllRow(jobs, due, now, id);
    }
  }

  /** The jobs sent for a due list are exactly the rows that fire, each once. */
  lemma {:induction false} FiredJobsAre(jobs: Table, due: seq<DueRow>, now: Instant)
    requires forall i, j :: 0 <= i < j < |due| ==> due[i].id != due[j].id
    requires forall i :: 0 <= i < |due| ==> IsDueRow(jobs, due[i], now)
    ensures var fired := FiredJobs(due, now);
            (forall i, j :: 0 <= i < j < |fired| ==> fired[i].id != fired[j].id) &&
            (forall job :: job in fired ==> IsFiredRow(jobs, job, now) && Columns(job.id, jobs[job.id]) in due) &&
            (forall row :: row in due && row.schedule.Decoded? ==> Fired(row, now) in fired)
  {
    hide Due;
    if due != [] {
      var (front, last) := (due[..|due| - 1], due[|due| - 1]);
      FiredJobsAre(jobs, front, now);
      assert due == front + [last];
      var before := FiredJobs(front, now);
      if last.schedule.Decoded? {
        assert FiredJobs(due, now) == before + [Fired(last, now)];
        forall i | 0 <= i < |before| ensures before[i].id != last.id {
          assert before[i] in before;
        }
      }
    }
  }

  predicate IsFiredRow(jobs: Table, job: FiredJob, now: Instant) {
    job.id in jobs && Fires(jobs[job.id], now) && job == Fired(Columns(job.id, jobs[job.id]), now)
  }

  /** With the clock in the years 0 to 9999, the queries select the rows due, or overdue, in time - and
      besides every row whose next run is in the year 10000 or later. */
  lemma TextSelectsDueRows(row: Row, now: Instant)
    requires Timestamp.FourDigitYear(now)
    ensures Due(row, now) <==>
            row.status == Pending && row.nextRun.Some? && (row.nextRun.value <= now || row.nextRun.value >= YEAR_10000)
    ensures Overdue(row, now) <==>
            row.status == Pending && row.nextRun.Some? && (row.nextRun.value < now || row.nextRun.value >= YEAR_10000)
  {
    hide Timestamp.ToRfc3339, Timestamp.Less;
    if row.nextRun.Some? { Timestamp.TextOrderExactly(row.nextRun.value, now); }
  }

  predicate OverdueInTime(row: Row, now: Instant) {
    row.status == Pending && row.nextRun.Some? && (row.nextRun.value < now || row.nextRun.value >= YEAR_10000)
  }

  /** A pending row is selected when its time has come, whatever the clock shows in those years, exactly
      when its next run is before the year 10000. */
  lemma DueInTimeExactly(row: Row)
    requires row.status == Pending && row.nextRun.Some?
    ensures (forall now :: Timestamp.FourDigitYear(now) ==> (Due(row, now) <==> row.nextRun.value <= now)) <==>
            row.nextRun.value < YEAR_10000
  {
    forall now | Timestamp.FourDigitYear(now)
      ensures Due(row, now) <==> row.nextRun.value <= now || row.nextRun.value >= YEAR_10000
    {
      TextSelectsDueRows(row, now);
    }
    hide Due;
    Timestamp.FourDigitYears(0);
  }

  /** Ticking again at the same instant fires nothing exactly when every row that fired got a next run
      later than that instant and before the year 10000, or none. */
  lemma TickTwiceFiresOnce(jobs: Table, now: Instant)
    requires Timestamp.FourDigitYear(now)
    ensures (forall id :: id in jobs ==> !Fires(TickTable(jobs, now)[id], now)) <==>
            forall id :: id in jobs && Fires(jobs[id], now) ==> Settled(TickTable(jobs, now)[id], now)
  {
    var once := TickTable(jobs, now);
    forall id | id in jobs ensures Fires(jobs[id], now) ==> (!Fires(once[id], now) <==> Settled(once[id], now)) {
      TextSelectsDueRows(once[id], now);
    }
    hide Due;
  }

  predicate Settled(row: Row, now: Instant) { row.nextRun.None? || now < row.nextRun.value < YEAR_10000 }

  lemma FireNone(jobs: Table, now: Instant)
    ensures FireAll(jobs, [], now) == jobs && FiredJobs([], now) == []
  {}

  lemma FireAllOne(jobs: Table, due: seq<DueRow>, row: DueRow, now: Instant)
    ensures FireAll(jobs, due + [row], now) == FireOne(FireAll(jobs, due, now), row, now)
    ensures FiredJobs(due + [row], now) ==
            if row.schedule.Decoded? then FiredJobs(due, now) + [Fired(row, now)] else FiredJobs(due, now)
    ensures !row.schedule.Decoded? ==> FireAll(jobs, due + [row], now) == FireAll(jobs, due, now)
  {
    assert (due + [row])[..|due|] == due;
  }

  /** What updating the rows of a due list, and sending its jobs, amounts to. */
  lemma DueListTicks(jobs: Table, due: seq<DueRow>, now: Instant)
    requires IsDueList(jobs, due, now)
    ensures FireAll(jobs, due, now) == TickTable(jobs, now)
    ensures var fired := FiredJobs(due, now);
            (forall i, j :: 0 <= i < j < |fired| ==> fired[i].id != fired[j].id) &&
            (forall job :: job in fired ==> IsFiredRow(jobs, job, now)) &&
            (forall id :: id in jobs && Fires(jobs[id], now) ==> Fired(Columns(id, jobs[id]), now) in fired)
    ensures (exists k :: 0 <= k < |due| && Panics(due[k], now)) <==> TickPanics(jobs, now)
  {
    hide FireAll, TickTable, FiredJobs;
    FireAllIsTick(jobs, due, now);
    FiredJobsAre(jobs, due, now);
    hide Due, Panics;
    if k :| 0 <= k < |due| && Panics(due[k], now) {
      assert IsDueRow(jobs, due[k], now) && due[k] == Columns(due[k].id, jobs[due[k].id]);
    }
  }

  /** Some row the tick comes to cannot be given its next run. */
  ghost predicate TickPanics(jobs: Table, now: Instant) {
    exists id :: id in jobs && Due(jobs[id], now) && Panics(Columns(id, jobs[id]), now)
  }

  /** The table and the jobs sent of a tick that stopped before the `k`-th row of its list. */
  ghost predicate StoppedAt(jobs: Table, due: seq<DueRow>, k: nat, now: Instant, left: Table, fired: seq<FiredJob>) {
    IsDueList(jobs, due, now) && k < |due| && Panics(due[k], now) &&
    (forall j :: 0 <= j < k ==> !Panics(due[j], now)) &&
    left == FireAll(jobs, due[..k], now) && fired == FiredJobs(due[..k], now)
  }

  /** What a tick is to do to a row. */
  ghost predicate Ticked(was: Row, now: Instant, row: Row) {
    if Due(was, now) && was.schedule.Decoded? then GoesOn(was, now, row) else row == was
  }

  /** Of a tick that does not panic: every due row goes on, every other row stays as it was, and the jobs
      sent report exactly the rows that went on, each once. */
  ghost predicate TickGoesOn(jobs: Table, now: Instant, after: Table, fired: seq<FiredJob>) {
    after.Keys == jobs.Keys && (forall id :: id in jobs ==> Ticked(jobs[id], now, after[id])) &&
    (forall i, j :: 0 <= i < j < |fired| ==> fired[i].id != fired[j].id) &&
    (forall id :: id in jobs && Due(jobs[id], now) && jobs[id].schedule.Decoded? ==>
       exists job :: job in fired && job.id == id) &&
    (forall job :: job in fired ==>
       job.id in jobs && Due(jobs[job.id], now) && Reports(job, job.id, now, after[job.id]))
  }

  lemma TickTableGoesOn(jobs: Table, now: Instant, fired: seq<FiredJob>)
    requires !TickPanics(jobs, now)
    requires forall i, j :: 0 <= i < j < |fired| ==> fired[i].id != fired[j].id
    requires forall job :: job in fired ==> IsFiredRow(jobs, job, now)
    requires forall id :: id in jobs && Fires(jobs[id], now) ==> Fired(Columns(id, jobs[id]), now) in fired
    ensures TickGoesOn(jobs, now, TickTable(jobs, now), fired)
  {
    var after := TickTable(jobs, now);
    forall id | id in jobs
      ensures Ticked(jobs[id], now, after[id])
      ensures Fires(jobs[id], now) ==> Reports(Fired(Columns(id, jobs[id]), now), id, now, after[id])
    {
      if Fires(jobs[id], now) { FiredRowGoesOn(id, jobs[id], now); }
    }
    hide Due, GoesOn, FireRow, NextAfterFire, TickPanics, Panics;
    forall id | id in jobs && Due(jobs[id], now) && jobs[id].schedule.Decoded?
      ensures exists job :: job in fired && job.id == id
    {
      assert Fired(Columns(id, jobs[id]), now).id == id;
    }
  }

  /** A tick that panics has dealt with some of the rows, as any tick does, and with no other. */
  ghost predicate SomeTicked(jobs: Table, now: Instant, after: Table, fired: seq<FiredJob>) {
    after.Keys == jobs.Keys &&
    (forall id :: id in jobs ==>
       if exists job :: job in fired && job.id == id then Due(jobs[id], now) && GoesOn(jobs[id], now, after[id])
       else after[id] == jobs[id]) &&
    (forall job :: job in fired ==> job.id in jobs && Reports(job, job.id, now, after[job.id]))
  }

  lemma StoppedTickGoesOn(jobs: Table, due: seq<DueRow>, k: nat, now: Instant, left: Table, fired: seq<FiredJob>)
    requires StoppedAt(jobs, due, k, now, left, fired)
    ensures SomeTicked(jobs, now, left, fired)
  {
    hide Due;
    var before := due[..k];
    FiredJobsAre(jobs, before, now);
    FireAllKeys(jobs, before, now);
    forall id | id in jobs
      ensures var row := Columns(id, jobs[id]);
              left[id] == (if row in before && row.schedule.Decoded? then FireRow(jobs[id], row, now) else jobs[id]) &&
              (row in before && row.schedule.Decoded? ==>
                 Due(jobs[id], now) && GoesOn(jobs[id], now, left[id]) && Reports(Fired(row, now), id, now, left[id]))
    {
      FireAllRow(jobs, before, now, id);
      var row := Columns(id, jobs[id]);
      if row in before && row.schedule.Decoded? {
        var j :| 0 <= j < k && due[j] == row;
        FiredRowGoesOn(id, jobs[id], now);
      }
    }
    hide FireRow, GoesOn, Panics, IsDueList, FireAll, FiredJobs, NextAfterFire;
    forall id | id in jobs && Columns(id, jobs[id]) in before && jobs[id].schedule.Decoded?
      ensures exists job :: job in fired && job.id == id
    {
      assert Fired(Columns(id, jobs[id]), now).id == id;
    }
  }

  lemma {:induction false} FireAllKeys(jobs: Table, due: seq<DueRow>, now: Instant)
    requires forall i :: 0 <= i < |due| ==> due[i].id in jobs
    ensures FireAll(jobs, due, now).Keys == jobs.Keys
  {
    hide FireRow;
    if due != [] { FireAllKeys(jobs, due[..|due| - 1], now); }
  }

  /** The first `sent` of the jobs fired, after one more has fired. */
  lemma SentOne(before: seq<FiredJob>, job: FiredJob, sent: nat, accepted: bool)
    requires if accepted then sent == |before| + 1 else sent <= |before|
    ensures (before + [job])[..sent] == if accepted then before + [job] else before[..sent]
    ensures before[..|before|] == before
  {}

  // ---------------------------------------------------------------------
  // The engine
  // ---------------------------------------------------------------------

  class Engine {
    var jobs: Table
    /** Fired jobs waiting for the delivery router, oldest first. */
    var queue: seq<FiredJob>
    /** Capacity of the delivery channel; `None` when the engine has no sender. */
    const capacity: Option<nat>

    ghost predicate Valid()
      reads this
    {
      capacity.Some? ==> |queue| <= capacity.value
    }

    constructor (capacity: Option<nat>)
      ensures Valid() && jobs == map[] && queue == [] && this.capacity == capacity
    {
      this.capacity := capacity;
      jobs, queue := map[], [];
    }

    /** Adds a pending job.  `id` is the fresh UUID; a clash is the primary key's error.  Nothing is
        inserted when computing the next run panics. */
    method AddJob(id: JobId, name: string, schedule: Schedule, action: string, now: Instant)
      returns (r: Result<Option<Instant>, Error>)
      requires Valid()
      modifies this`jobs
      ensures Valid()
      ensures ComputeNextRun(schedule, now).Overflow? ==> r == Err(Panic) && jobs == old(jobs)
      ensures !ComputeNextRun(schedule, now).Overflow? && id in old(jobs) ==>
                r == Err(DuplicateKey(id)) && jobs == old(jobs)
      ensures !ComputeNextRun(schedule, now).Overflow? && id !in old(jobs) ==>
                id in jobs && IsNewRow(jobs[id], name, schedule, action, now) &&
                jobs == old(jobs)[id := jobs[id]] && r == Ok(jobs[id].nextRun)
    {
      var next := ComputeNextRun(schedule, now);
      if next.Overflow? { return Err(Panic); }
      if id in jobs { return Err(DuplicateKey(id)); }
      AddedRowIsNew(name, schedule, action, now);
      jobs := jobs[id := NewRow(name, schedule, action, now)];
      r := Ok(ToOption(next));
    }

    method RemoveJob(id: JobId) returns (r: Result<(), Error>)
      requires Valid()
      modifies this`jobs
      ensures Valid()
      ensures jobs == old(jobs) - {id}
      ensures r == if id in old(jobs) then Ok(()) else Err(JobNotFound(id))
    {
      r := if id in jobs then Ok(()) else Err(JobNotFound(id));
      jobs := jobs - {id};
    }

    /** With the clock in the years 0 to 9999: of the pending rows, exactly those whose next run is in
        the past, or in the year 10000 or later, become missed; every other row stays as it was. */
    method MarkMissedOnStartup(now: Instant)
      requires Valid()
      modifies this`jobs
      ensures Valid() && jobs == MarkMissed(old(jobs), now) && jobs.Keys == old(jobs).Keys
      ensures Timestamp.FourDigitYear(now) ==> forall id :: id in jobs ==>
                var was := old(jobs)[id];
                jobs[id] == if OverdueInTime(was, now) then was.(status := Missed, updatedAt := now) else was
    {
      jobs := MarkMissed(jobs, now);
      if Timestamp.FourDigitYear(now) {
        forall id | id in old(jobs) ensures Overdue(old(jobs)[id], now) <==> OverdueInTime(old(jobs)[id], now) {
          TextSelectsDueRows(old(jobs)[id], now);
        }
      }
    }

    /** The due query: each due row once, in an order the database chooses. */
    method SelectDue(now: Instant) returns (due: seq<DueRow>)
      ensures IsDueList(jobs, due, now)
    {
      hide Due;
      due := [];
      var rest := jobs.Keys;
      while rest != {}
        invariant rest <= jobs.Keys
        invariant forall i, j :: 0 <= i < j < |due| ==> due[i].id != due[j].id
        invariant forall i :: 0 <= i < |due| ==> due[i].id !in rest && IsDueRow(jobs, due[i], now)
        invariant forall id :: id in jobs && id !in rest && Due(jobs[id], now) ==> Columns(id, jobs[id]) in due
        decreases rest
      {
        var id :| id in rest;
        if Due(jobs[id], now) { due := due + [Columns(id, jobs[id])]; }
        rest := rest - {id};
      }
    }

    /** Hands a fired job to the delivery channel without blocking; a full channel drops it. */
    method TrySend(job: FiredJob) returns (accepted: bool)
      requires capacity.Some? ==> |queue| <= capacity.value
      modifies this`queue
      ensures capacity.Some? ==> |queue| <= capacity.value
      ensures accepted == (capacity.Some? && |old(queue)| < capacity.value)
      ensures queue == if accepted then old(queue) + [job] else old(queue)
    {
      accepted := capacity.Some? && |queue| < capacity.value;
      if accepted { queue := queue + [job]; }
    }

    /** One pass over the due jobs.  Unless a row's next run panics, the table becomes `TickTable` of the
        old one and each job that fires does so once; a panic leaves the rows before it fired.  The
        channel takes the first jobs it has room for. */
    method Tick(now: Instant) returns (fired: seq<FiredJob>, panicked: bool)
      requires Valid()
      modifies this`jobs, this`queue
      ensures Valid()
      ensures panicked <==> TickPanics(old(jobs), now)
      ensures panicked ==> exists due, k :: StoppedAt(old(jobs), due, k, now, jobs, fired)
      ensures panicked ==> SomeTicked(old(jobs), now, jobs, fired)
      ensures !panicked ==> jobs == TickTable(old(jobs), now) && TickGoesOn(old(jobs), now, jobs, fired)
      ensures exists sent :: 0 <= sent <= |fired| && queue == old(queue) + fired[..sent] &&
                (sent < |fired| ==> capacity.None? || |queue| == capacity.value)
    {
      hide FireAll, FiredJobs, FireOne, TickTable, FireRow, Fired, IsDueList,
           IsFiredRow, Fires, Columns, Panics, TickPanics, TickGoesOn, SomeTicked;
      var due := SelectDue(now);
      fired, panicked := [], false;
      FireNone(jobs, now);
      ghost var sent := 0;
      ghost var start := jobs;
      DueListTicks(start, due, now);
      for k := 0 to |due|
        invariant capacity.Some? ==> |queue| <= capacity.value
        invariant jobs == FireAll(start, due[..k], now)
        invariant fired == FiredJobs(due[..k], now)
        invariant 0 <= sent <= |fired| && queue == old(queue) + fired[..sent]
        invariant sent < |fired| ==> capacity.None? || |queue| == capacity.value
        invariant forall j :: 0 <= j < k ==> !Panics(due[j], now)
      {
        assert due[..k + 1] == due[..k] + [due[k]];
        FireAllOne(start, due[..k], due[k], now);
        if due[k].schedule.Undecodable? { NoPanic(due[k], now); continue; }
        if Panics(due[k], now) {
          panicked := true;
          assert StoppedAt(start, due, k, now, jobs, fired);
          StoppedTickGoesOn(start, due, k, now, jobs, fired);
          return;
        }
        jobs := FireOne(jobs, due[k], now);
        ghost var before := fired;
        var job := Fired(due[k], now);
        fired := fired + [job];
        var accepted := TrySend(job);
        if accepted { sent := sent + 1; }
        SentOne(before, job, sent, accepted);
      }
      assert due[..|due|] == due;
      TickTableGoesOn(start, now, fired);
    }
  }

  lemma NoPanic(due: DueRow, now: Instant)
    requires due.schedule.Undecodable?
    ensures !Panics(due, now)
  {}
}
