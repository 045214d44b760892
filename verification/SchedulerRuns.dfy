/** Whole runs of the scheduler, with a tick split into its query and, per row, one update and one send,
    and with handle calls, deliveries, database errors, panics and crashes between any two steps.

    The wall clock is an arbitrary instant at every step: nothing assumes that it moves forward. */
module SchedulerRuns {
  import opened Prelude
  import opened Schedule
  import opened SchedulerEngine
  import Recurrence
  import Timestamp

  /** One firing, as history: the slot is the `nextRun` the row held when the query found it due. */
  datatype Fire = Fire(job: FiredJob, slot: Instant, accepted: bool)

  datatype Selected = Selected(row: DueRow, slot: Instant)

  /** `sending` says that a row has been updated and its job not yet sent.  `Dead` is the engine after
      a panic: only a restart revives it. */
  datatype Phase = Stopped | Dead | Idle | Ticking(now: Instant, due: seq<Selected>, sending: bool)

  /** `used` are the ids ever inserted; `log` is every firing in order, that is every update, accepted
      once the channel has taken its job; `gone` are the jobs that left the channel, each delivered to
      the router or lost with the channel; `open` says that the engine has a sender and the channel a
      receiver. */
  datatype State = State(
    jobs: Table, used: set<JobId>, phase: Phase, queue: seq<Fire>, gone: seq<Departure>, log: seq<Fire>, open: bool)

  datatype Departure = Departure(fire: Fire, delivered: bool)

  datatype Action =
    | Start(clock: Instant, open: bool)
    | Select(clock: Instant, order: seq<JobId>)
    | FireNext
    | Send
    | EndTick
    | AbortTick
    | Add(id: JobId, name: string, schedule: Schedule, action: string, maxRuns: Option<nat>, clock: Instant)
    | Remove(id: JobId)
    | Deliver
    | CloseChannel
    | Crash

  const CAPACITY: nat := 256

  const INITIAL: State := State(map[], {}, Stopped, [], [], [], false)

  /** The order in which a query returned the due rows: all of them, each once. */
  ghost predicate IsDueOrder(jobs: Table, order: seq<JobId>, now: Instant) {
    (forall i, j :: 0 <= i < j < |order| ==> order[i] != order[j]) &&
    (forall id :: id in order <==> id in jobs && Due(jobs[id], now))
  }

  function SelectRows(jobs: Table, order: seq<JobId>): (rows: seq<Selected>)
    requires forall id :: id in order ==> id in jobs && jobs[id].nextRun.Some?
    ensures |rows| == |order|
    ensures forall i :: 0 <= i < |order| ==>
              rows[i] == Selected(Columns(order[i], jobs[order[i]]), jobs[order[i]].nextRun.value)
  {
    seq(|order|, i requires 0 <= i < |order| =>
      assert order[i] in order; Selected(Columns(order[i], jobs[order[i]]), jobs[order[i]].nextRun.value))
  }

  function Lose(queue: seq<Fire>): (lost: seq<Departure>)
    ensures |lost| == |queue| && forall i :: 0 <= i < |queue| ==> lost[i] == Departure(queue[i], false)
  {
    seq(|queue|, i requires 0 <= i < |queue| => Departure(queue[i], false))
  }

  /** One step.  `None` when the action is not possible in this state. */
  ghost function Step(s: State, a: Action): Option<State> {
    match a
    case Start(clock, open) =>
      if s.phase.Stopped? then Some(s.(jobs := MarkMissed(s.jobs, clock), phase := Idle, open := open)) else None
    case Select(clock, order) =>
      if s.phase.Idle? && IsDueOrder(s.jobs, order, clock)
      then Some(s.(phase := Ticking(clock, SelectRows(s.jobs, order), false))) else None
    case FireNext =>
      if !CanFire(s) then None
      else if Panics(s.phase.due[0].row, s.phase.now) then Some(s.(phase := Dead))
      else Some(FireStep(s))
    case Send => if s.phase.Ticking? && s.phase.sending && s.log != [] then Some(SendStep(s)) else None
    case EndTick => if s.phase.Ticking? && s.phase.due == [] && !s.phase.sending then Some(s.(phase := Idle)) else None
    case AbortTick => if s.phase.Ticking? && !s.phase.sending then Some(s.(phase := Idle)) else None
    case Add(id, name, schedule, action, maxRuns, clock) =>
      // A fresh UUID; the two callers pass no `maxRuns`, which only other writers of the table set.
      if id !in s.used && !ComputeNextRun(schedule, clock).Overflow?
      then Some(s.(jobs := s.jobs[id := NewRow(name, schedule, action, clock).(maxRuns := maxRuns)],
                   used := s.used + {id}))
      else None
    case Remove(id) => Some(s.(jobs := s.jobs - {id}))
    case Deliver =>
      if s.queue != []
      then Some(s.(queue := s.queue[1..], gone := s.gone + [Departure(s.queue[0], true)])) else None
    case CloseChannel => Some(Closed(s))
    case Crash => Some(Closed(s).(phase := Stopped))
  }

  /** The receiver goes away, and what was queued with it. */
  function Closed(s: State): State { s.(open := false, queue := [], gone := s.gone + Lose(s.queue)) }

  predicate CanFire(s: State) {
    s.phase.Ticking? && !s.phase.sending && s.phase.due != [] && s.phase.due[0].row.schedule.Decoded?
  }

  /** The update of the first selected row. */
  function FireStep(s: State): State
    requires CanFire(s)
  {
    var entry := s.phase.due[0];
    s.(jobs := FireOne(s.jobs, entry.row, s.phase.now),
       phase := s.phase.(due := s.phase.due[1..], sending := true),
       log := s.log + [Fire(Fired(entry.row, s.phase.now), entry.slot, false)])
  }

  /** The non-blocking send of the job just updated: a full or closed channel drops it. */
  function SendStep(s: State): State
    requires s.phase.Ticking? && s.log != []
  {
    var sent := s.(phase := s.phase.(sending := false));
    var fire := s.log[|s.log| - 1].(accepted := true);
    if !s.open || |s.queue| >= CAPACITY then sent
    else sent.(queue := s.queue + [fire], log := s.log[..|s.log| - 1] + [fire])
  }

  /** The state after a sequence of actions from `s`; `None` if one of them was not possible. */
  ghost function Run(s: State, actions: seq<Action>): Option<State> {
    if actions == [] then Some(s)
    else match Run(s, actions[..|actions| - 1])
         case None => None
         case Some(t) => Step(t, actions[|actions| - 1])
  }

  // ---------------------------------------------------------------------
  // What every run keeps, about one job
  // ---------------------------------------------------------------------

  /** A slot is one the schedule names. */
  ghost predicate SlotOf(schedule: Schedule, slot: Instant) {
    (schedule.Once? || schedule.Daily? || schedule.Weekly? ==> Occurs(schedule, slot)) && !schedule.Cron?
  }

  function Limit(maxRuns: Option<nat>): nat { if maxRuns.Some? && maxRuns.value > 1 then maxRuns.value else 1 }

  /** Firings of one job so far. */
  function Count(log: seq<Fire>, id: JobId): nat {
    if log == [] then 0 else Count(log[..|log| - 1], id) + (if log[|log| - 1].job.id == id then 1 else 0)
  }

  ghost predicate RowOk(s: State, id: JobId)
    requires id in s.jobs
  {
    var row := s.jobs[id];
    id in s.used && row.schedule.Decoded? && row.status in {Pending, Completed, Missed} &&
    row.runCount == Count(s.log, id) &&
    (row.maxRuns.Some? ==> row.runCount <= Limit(row.maxRuns) &&
                           (row.status == Pending ==> row.runCount < Limit(row.maxRuns))) &&
    (forall i :: 0 <= i < |s.log| && s.log[i].job.id == id ==> s.log[i].job.schedule == row.schedule.schedule) &&
    (row.nextRun.Some? ==> SlotOf(row.schedule.schedule, row.nextRun.value))
  }

  /** A selected row still describes its job: the row is unchanged, or it was removed. */
  ghost predicate EntryOk(s: State, e: Selected) {
    e.row.id in s.used && e.row.schedule.Decoded? &&
    (e.row.id in s.jobs ==>
       var row := s.jobs[e.row.id];
       row.status == Pending && row.nextRun == Some(e.slot) && e.row == Columns(e.row.id, row)) &&
    SlotOf(e.row.schedule.schedule, e.slot) &&
    e.row.runCount == Count(s.log, e.row.id) &&
    (e.row.maxRuns.Some? ==> e.row.runCount < Limit(e.row.maxRuns)) &&
    forall i :: 0 <= i < |s.log| && s.log[i].job.id == e.row.id ==> s.log[i].job.schedule == e.row.schedule.schedule
  }

  ghost predicate TickOk(s: State) {
    s.phase.Ticking? ==>
      (s.phase.sending ==> s.log != [] && !s.log[|s.log| - 1].accepted) &&
      (forall i :: 0 <= i < |s.phase.due| ==> EntryOk(s, s.phase.due[i])) &&
      (forall i, j :: 0 <= i < j < |s.phase.due| ==> s.phase.due[i].row.id != s.phase.due[j].row.id)
  }

  /** The firings of one job: numbered from 1, under one schedule, all for slots the schedule names. */
  ghost predicate LogOk(s: State) {
    (forall i :: 0 <= i < |s.log| ==>
       s.log[i].job.id in s.used && SlotOf(s.log[i].job.schedule, s.log[i].slot) &&
       s.log[i].job.runCount == Count(s.log[..i], s.log[i].job.id) + 1 &&
       (s.log[i].job.maxRuns.Some? ==> s.log[i].job.runCount <= Limit(s.log[i].job.maxRuns))) &&
    (forall i, j :: 0 <= i < j < |s.log| && s.log[i].job.id == s.log[j].job.id ==>
       s.log[i].job.schedule == s.log[j].job.schedule)
  }

  ghost predicate RowsOk(s: State) { forall id :: id in s.jobs ==> RowOk(s, id) }

  ghost predicate Inv(s: State) { RowsOk(s) && TickOk(s) && LogOk(s) }

  lemma CountAppend(log: seq<Fire>, f: Fire, id: JobId)
    ensures Count(log + [f], id) == Count(log, id) + (if f.job.id == id then 1 else 0)
  {
    assert (log + [f])[..|log|] == log;
  }

  lemma {:induction false} CountUnused(log: seq<Fire>, id: JobId)
    requires forall i :: 0 <= i < |log| ==> log[i].job.id != id
    ensures Count(log, id) == 0
  {
    if log != [] { CountUnused(log[..|log| - 1], id); }
  }

  /** A next run found at or after a slot is itself a slot of the schedule, after that slot. */
  lemma NextSlot(schedule: Schedule, now: Instant)
    requires ComputeNextRun(schedule, now).At?
    ensures SlotOf(schedule, ComputeNextRun(schedule, now).at)
  {
    if schedule.Once? || schedule.Daily? || schedule.Weekly? {
      NextRunIsFirstOccurrence(schedule, now);
      assert FirstAfter(schedule, now, ComputeNextRun(schedule, now).at);
    }
  }

  lemma FireKeepsLog(s: State)
    requires Inv(s) && CanFire(s)
    ensures LogOk(FireStep(s))
  {
    hide SlotOf, FireOne;
    assert EntryOk(s, s.phase.due[0]);
    LogGrows(s, FireStep(s), FireStep(s).log[|s.log|]);
  }

  lemma LogGrows(s: State, t: State, fire: Fire)
    requires LogOk(s) && t.log == s.log + [fire] && t.used == s.used
    requires fire.job.id in s.used && SlotOf(fire.job.schedule, fire.slot)
    requires fire.job.runCount == Count(s.log, fire.job.id) + 1
    requires fire.job.maxRuns.Some? ==> fire.job.runCount <= Limit(fire.job.maxRuns)
    requires forall i :: 0 <= i < |s.log| && s.log[i].job.id == fire.job.id ==>
               s.log[i].job.schedule == fire.job.schedule
    ensures LogOk(t)
  {
    hide SlotOf, Count, Limit;
    forall i | 0 <= i < |s.log| ensures t.log[i] == s.log[i] && t.log[..i] == s.log[..i] { }
    assert t.log[..|s.log|] == s.log;
  }

  lemma FireKeepsRow(s: State)
    requires Inv(s) && CanFire(s) && !Panics(s.phase.due[0].row, s.phase.now)
    ensures var id := s.phase.due[0].row.id; id in s.jobs ==> RowOk(FireStep(s), id)
  {
    hide SlotOf, ComputeNextRun;
    var e := s.phase.due[0];
    assert EntryOk(s, e);
    if e.row.id in s.jobs {
      assert RowOk(s, e.row.id);
      var t := FireStep(s);
      CountAppend(s.log, t.log[|s.log|], e.row.id);
      if t.jobs[e.row.id].nextRun.Some? { NextSlot(e.row.schedule.schedule, s.phase.now); }
    }
  }

  lemma FireKeepsOthers(s: State, id: JobId)
    requires Inv(s) && CanFire(s) && id in s.jobs && id != s.phase.due[0].row.id
    ensures RowOk(FireStep(s), id)
  {
    hide SlotOf, FireRow;
    assert RowOk(s, id);
    CountAppend(s.log, FireStep(s).log[|s.log|], id);
  }

  lemma FireKeepsTick(s: State)
    requires Inv(s) && CanFire(s)
    ensures TickOk(FireStep(s))
  {
    hide SlotOf, FireRow;
    var t := FireStep(s);
    forall i | 0 <= i < |t.phase.due| ensures EntryOk(t, t.phase.due[i]) {
      assert t.phase.due[i] == s.phase.due[i + 1];
      CountAppend(s.log, t.log[|s.log|], t.phase.due[i].row.id);
      assert EntryOk(s, s.phase.due[i + 1]);
    }
  }

  lemma FireKeepsInv(s: State)
    requires Inv(s) && CanFire(s) && !Panics(s.phase.due[0].row, s.phase.now)
    ensures Inv(FireStep(s))
  {
    hide RowOk, TickOk, LogOk, Panics;
    FireKeepsLog(s);
    FireKeepsTick(s);
    FireKeepsRow(s);
    forall id | id in FireStep(s).jobs ensures RowOk(FireStep(s), id) {
      if id != s.phase.due[0].row.id { FireKeepsOthers(s, id); }
    }
  }

  /** Two logs that tell of the same firings, but perhaps for what the channel took. */
  ghost predicate SameFirings(a: seq<Fire>, b: seq<Fire>) {
    |a| == |b| && forall i :: 0 <= i < |a| ==> a[i].job == b[i].job && a[i].slot == b[i].slot
  }

  lemma {:induction false} SameCounts(a: seq<Fire>, b: seq<Fire>, id: JobId)
    requires SameFirings(a, b)
    ensures Count(a, id) == Count(b, id)
  {
    if a != [] { SameCounts(a[..|a| - 1], b[..|b| - 1], id); }
  }

  lemma SendSameFirings(s: State)
    requires s.phase.Ticking? && s.log != []
    ensures SameFirings(s.log, SendStep(s).log) && SendStep(s).jobs == s.jobs && SendStep(s).used == s.used
  {
  }

  lemma RowIgnores(s: State, t: State, id: JobId)
    requires id in s.jobs && RowOk(s, id) && t.jobs == s.jobs && t.used == s.used && SameFirings(s.log, t.log)
    ensures RowOk(t, id)
  {
    hide SlotOf;
    SameCounts(s.log, t.log, id);
  }

  lemma EntryIgnores(s: State, t: State, e: Selected)
    requires EntryOk(s, e) && t.jobs == s.jobs && t.used == s.used && SameFirings(s.log, t.log)
    ensures EntryOk(t, e)
  {
    hide SlotOf;
    SameCounts(s.log, t.log, e.row.id);
  }

  lemma LogIgnores(s: State, t: State)
    requires LogOk(s) && t.used == s.used && SameFirings(s.log, t.log)
    ensures LogOk(t)
  {
    hide SlotOf;
    forall i | 0 <= i < |s.log| ensures Count(t.log[..i], t.log[i].job.id) == Count(s.log[..i], s.log[i].job.id) {
      SameCounts(s.log[..i], t.log[..i], s.log[i].job.id);
    }
  }

  /** Nothing that is kept about jobs depends on what the channel took. */
  lemma SendKeepsInv(s: State)
    requires Inv(s) && s.phase.Ticking? && s.log != []
    ensures Inv(SendStep(s))
  {
    var t := SendStep(s);
    SendSameFirings(s);
    SendPhase(s);
    hide SlotOf, SendStep, RowOk, EntryOk, LogOk, SameFirings;
    forall id | id in t.jobs ensures RowOk(t, id) { RowIgnores(s, t, id); }
    forall i | 0 <= i < |t.phase.due| ensures EntryOk(t, t.phase.due[i]) { EntryIgnores(s, t, s.phase.due[i]); }
    LogIgnores(s, t);
  }

  lemma SendPhase(s: State)
    requires s.phase.Ticking? && s.log != []
    ensures SendStep(s).phase == s.phase.(sending := false)
  {}

  lemma SelectKeepsInv(s: State, clock: Instant, order: seq<JobId>)
    requires Inv(s) && s.phase.Idle? && IsDueOrder(s.jobs, order, clock)
    ensures Inv(s.(phase := Ticking(clock, SelectRows(s.jobs, order), false)))
  {
    hide SlotOf, Timestamp.TextBefore;
    var t := s.(phase := Ticking(clock, SelectRows(s.jobs, order), false));
    forall id | id in t.jobs ensures RowOk(t, id) { assert RowOk(s, id); }
    forall i | 0 <= i < |t.phase.due| ensures EntryOk(t, t.phase.due[i]) {
      assert order[i] in order;
      assert RowOk(s, order[i]);
    }
  }

  lemma AddKeepsInv(s: State, a: Action)
    requires Inv(s) && a.Add? && Step(s, a).Some?
    ensures Inv(Step(s, a).value)
  {
    hide SlotOf, ComputeNextRun;
    var t := Step(s, a).value;
    if ComputeNextRun(a.schedule, a.clock).At? { NextSlot(a.schedule, a.clock); }
    assert RowOk(t, a.id) by { CountUnused(s.log, a.id); }
    hide NewRow;
    forall id | id in t.jobs && id != a.id ensures RowOk(t, id) { assert RowOk(s, id); }
    if s.phase.Ticking? {
      forall i | 0 <= i < |s.phase.due| ensures EntryOk(t, s.phase.due[i]) { assert EntryOk(s, s.phase.due[i]); }
    }
  }

  lemma StartKeepsInv(s: State, clock: Instant, open: bool)
    requires Inv(s) && s.phase.Stopped?
    ensures Inv(s.(jobs := MarkMissed(s.jobs, clock), phase := Idle, open := open))
  {
    hide SlotOf, Overdue;
    var t := s.(jobs := MarkMissed(s.jobs, clock), phase := Idle);
    forall id | id in t.jobs ensures RowOk(t, id) { assert RowOk(s, id); }
  }

  lemma RemoveKeepsInv(s: State, id: JobId)
    requires Inv(s)
    ensures Inv(s.(jobs := s.jobs - {id}))
  {
    hide SlotOf;
    var t := s.(jobs := s.jobs - {id});
    forall other | other in t.jobs ensures RowOk(t, other) { assert RowOk(s, other); }
    if t.phase.Ticking? {
      forall i | 0 <= i < |t.phase.due| ensures EntryOk(t, t.phase.due[i]) { assert EntryOk(s, s.phase.due[i]); }
    }
  }

  /** Steps that touch neither the table nor the log, and start no tick. */
  lemma QuietKeepsInv(s: State, t: State)
    requires Inv(s) && t.jobs == s.jobs && t.log == s.log && t.used == s.used
    requires t.phase == s.phase || !t.phase.Ticking?
    ensures Inv(t)
  {
    hide SlotOf;
    forall id | id in t.jobs ensures RowOk(t, id) { assert RowOk(s, id); }
    if t.phase.Ticking? {
      forall i | 0 <= i < |t.phase.due| ensures EntryOk(t, t.phase.due[i]) { assert EntryOk(s, s.phase.due[i]); }
    }
  }

  lemma StepKeepsInv(s: State, a: Action)
    requires Inv(s) && Step(s, a).Some?
    ensures Inv(Step(s, a).value)
  {
    hide Inv, MarkMissed, ComputeNextRun, Panics, IsDueOrder, FireOne, SendStep, SelectRows;
    match a {
      case FireNext =>
        if Panics(s.phase.due[0].row, s.phase.now) { QuietKeepsInv(s, s.(phase := Dead)); } else { FireKeepsInv(s); }
      case Send => SendKeepsInv(s);
      case Select(clock, order) => SelectKeepsInv(s, clock, order);
      case Add(_, _, _, _, _, _) => AddKeepsInv(s, a);
      case Start(clock, open) => StartKeepsInv(s, clock, open);
      case Remove(id) => RemoveKeepsInv(s, id);
      case _ => QuietKeepsInv(s, Step(s, a).value);
    }
  }

  lemma {:induction false} RunKeepsInv(s: State, actions: seq<Action>)
    requires Inv(s) && Run(s, actions).Some?
    ensures Inv(Run(s, actions).value)
  {
    if actions != [] {
      RunKeepsInv(s, actions[..|actions| - 1]);
      StepKeepsInv(Run(s, actions[..|actions| - 1]).value, actions[|actions| - 1]);
    }
  }

  // ---------------------------------------------------------------------
  // Time: what runs keep while the clocks stay in the years 0 to 9999
  // ---------------------------------------------------------------------

  predicate ClockWithin(a: Action, horizon: Instant) {
    (a.Start? || a.Select? || a.Add?) ==> Within(a.clock, horizon)
  }

  predicate ClocksWithin(actions: seq<Action>, horizon: Instant) {
    forall i :: 0 <= i < |actions| ==> ClockWithin(actions[i], horizon)
  }

  /** A later firing comes for a later slot, and an interval apart. */
  predicate Follows(f: Fire, slot: Instant) {
    f.slot < slot && (f.job.schedule.Interval? ==> f.job.lastRun + f.job.schedule.everySecs as int * SECOND <= slot)
  }

  /** A slot that text compares as time does, after every firing of the job so far. */
  ghost predicate InOrder(s: State, id: JobId, schedule: Schedule, slot: Instant, horizon: Instant) {
    Timely(schedule, horizon) ==>
      YEAR_0 <= slot < YEAR_10000 && forall i :: 0 <= i < |s.log| && s.log[i].job.id == id ==> Follows(s.log[i], slot)
  }

  ghost predicate RowTimely(s: State, id: JobId, horizon: Instant)
    requires id in s.jobs
  {
    s.jobs[id].schedule.Decoded? && s.jobs[id].nextRun.Some? ==>
      InOrder(s, id, s.jobs[id].schedule.schedule, s.jobs[id].nextRun.value, horizon)
  }

  ghost predicate EntryTimely(s: State, e: Selected, now: Instant, horizon: Instant) {
    e.row.schedule.Decoded? ==>
      InOrder(s, e.row.id, e.row.schedule.schedule, e.slot, horizon) &&
      (Timely(e.row.schedule.schedule, horizon) ==> e.slot <= now)
  }

  ghost predicate LogTimely(s: State, horizon: Instant) {
    (forall i :: 0 <= i < |s.log| && Timely(s.log[i].job.schedule, horizon) ==>
       s.log[i].slot <= s.log[i].job.lastRun) &&
    (forall i, j :: 0 <= i < j < |s.log| && s.log[i].job.id == s.log[j].job.id &&
                    Timely(s.log[i].job.schedule, horizon) ==>
       Follows(s.log[i], s.log[j].slot))
  }

  ghost predicate InTime(s: State, horizon: Instant) {
    (forall id :: id in s.jobs ==> RowTimely(s, id, horizon)) && LogTimely(s, horizon) &&
    (s.phase.Ticking? ==>
       Within(s.phase.now, horizon) &&
       forall i :: 0 <= i < |s.phase.due| ==> EntryTimely(s, s.phase.due[i], s.phase.now, horizon))
  }

  /** The next run after a firing comes after that firing's slot and after every slot before. */
  lemma NextFollows(f: Fire, e: Selected, now: Instant, horizon: Instant)
    requires e.row.schedule.Decoded? && f.job.schedule == e.row.schedule.schedule
    requires Timely(f.job.schedule, horizon) && Within(now, horizon) && e.slot <= now
    requires ComputeNextRun(f.job.schedule, now).At?
    requires Follows(f, e.slot) || (f.slot == e.slot && f.job.lastRun == now)
    ensures Follows(f, ComputeNextRun(f.job.schedule, now).at)
  {
    assert now < ComputeNextRun(f.job.schedule, now).at;
  }

  lemma FireRowInTime(s: State, horizon: Instant)
    requires Inv(s) && InTime(s, horizon) && CanFire(s) && !Panics(s.phase.due[0].row, s.phase.now)
    ensures var id := s.phase.due[0].row.id; id in s.jobs ==> RowTimely(FireStep(s), id, horizon)
  {
    hide ComputeNextRun, SlotOf, Follows, Timely;
    var (e, now) := (s.phase.due[0], s.phase.now);
    assert EntryOk(s, e) && EntryTimely(s, e, now, horizon);
    var schedule := e.row.schedule.schedule;
    if e.row.id in s.jobs && FireStep(s).jobs[e.row.id].nextRun.Some? && Timely(schedule, horizon) {
      var t := FireStep(s);
      var next := ComputeNextRun(schedule, now);
      TimelyNext(schedule, now, horizon);
      forall i | 0 <= i < |t.log| && t.log[i].job.id == e.row.id ensures Follows(t.log[i], next.at) {
        if i < |s.log| { assert t.log[i] == s.log[i] && Follows(s.log[i], e.slot); }
        NextFollows(t.log[i], e, now, horizon);
      }
    }
  }

  lemma TimelyNext(schedule: Schedule, clock: Instant, horizon: Instant)
    requires Timely(schedule, horizon) && Within(clock, horizon) && ComputeNextRun(schedule, clock).At?
    ensures clock < ComputeNextRun(schedule, clock).at < YEAR_10000 && YEAR_0 <= ComputeNextRun(schedule, clock).at
  {
  }

  /** Another job's slot is not touched by a firing. */
  lemma OthersInOrder(s: State, fire: Fire, id: JobId, schedule: Schedule, slot: Instant, horizon: Instant)
    requires InOrder(s, id, schedule, slot, horizon) && fire.job.id != id
    ensures InOrder(s.(log := s.log + [fire]), id, schedule, slot, horizon)
  {
    hide Follows, Timely;
  }

  lemma InOrderIgnores(s: State, t: State, id: JobId, schedule: Schedule, slot: Instant, horizon: Instant)
    requires SameFirings(s.log, t.log) && InOrder(s, id, schedule, slot, horizon)
    ensures InOrder(t, id, schedule, slot, horizon)
  {
    hide Timely;
  }

  lemma FireInTime(s: State, horizon: Instant)
    requires Inv(s) && InTime(s, horizon) && CanFire(s) && !Panics(s.phase.due[0].row, s.phase.now)
    ensures InTime(FireStep(s), horizon)
  {
    hide SlotOf, Follows, Timely, InOrder, FireRow;
    var (t, e) := (FireStep(s), s.phase.due[0]);
    var fire := t.log[|s.log|];
    FireRowInTime(s, horizon);
    FireLogInTime(s, horizon);
    assert forall i :: 0 < i < |s.phase.due| ==> s.phase.due[i].row.id != e.row.id;
    forall id | id in t.jobs && id != e.row.id ensures RowTimely(t, id, horizon) {
      assert RowTimely(s, id, horizon) && t.jobs[id] == s.jobs[id];
      if s.jobs[id].schedule.Decoded? && s.jobs[id].nextRun.Some? {
        OthersInOrder(s, fire, id, s.jobs[id].schedule.schedule, s.jobs[id].nextRun.value, horizon);
        InOrderIgnores(s.(log := s.log + [fire]), t, id,
                       s.jobs[id].schedule.schedule, s.jobs[id].nextRun.value, horizon);
      }
    }
    forall i | 0 <= i < |t.phase.due| ensures EntryTimely(t, t.phase.due[i], t.phase.now, horizon) {
      var other := s.phase.due[i + 1];
      assert t.phase.due[i] == other && EntryTimely(s, other, s.phase.now, horizon);
      if other.row.schedule.Decoded? {
        OthersInOrder(s, fire, other.row.id, other.row.schedule.schedule, other.slot, horizon);
        InOrderIgnores(s.(log := s.log + [fire]), t, other.row.id, other.row.schedule.schedule, other.slot, horizon);
      }
    }
  }

  lemma FireLogInTime(s: State, horizon: Instant)
    requires Inv(s) && InTime(s, horizon) && CanFire(s)
    ensures LogTimely(FireStep(s), horizon)
  {
    hide SlotOf, Follows, Timely, FireRow, FireOne;
    var (t, e) := (FireStep(s), s.phase.due[0]);
    assert EntryOk(s, e) && EntryTimely(s, e, s.phase.now, horizon);
    forall i | 0 <= i < |s.log| ensures t.log[i] == s.log[i] { }
  }

  lemma SendInTime(s: State, horizon: Instant)
    requires InTime(s, horizon) && s.phase.Ticking? && s.log != []
    ensures InTime(SendStep(s), horizon)
  {
    var t := SendStep(s);
    SendSameFirings(s);
    SendPhase(s);
    hide SendStep, Timely, InOrder;
    forall id | id in t.jobs ensures RowTimely(t, id, horizon) {
      assert RowTimely(s, id, horizon);
      if s.jobs[id].schedule.Decoded? && s.jobs[id].nextRun.Some? {
        InOrderIgnores(s, t, id, s.jobs[id].schedule.schedule, s.jobs[id].nextRun.value, horizon);
      }
    }
    forall i | 0 <= i < |t.phase.due| ensures EntryTimely(t, t.phase.due[i], t.phase.now, horizon) {
      var e := s.phase.due[i];
      assert EntryTimely(s, e, s.phase.now, horizon);
      if e.row.schedule.Decoded? { InOrderIgnores(s, t, e.row.id, e.row.schedule.schedule, e.slot, horizon); }
    }
  }

  /** The query selects a row whose slot text orders as time does only when the slot has come. */
  lemma SelectInTime(s: State, clock: Instant, order: seq<JobId>, horizon: Instant)
    requires Inv(s) && InTime(s, horizon) && s.phase.Idle? && IsDueOrder(s.jobs, order, clock)
    requires Within(clock, horizon) && horizon < YEAR_10000
    ensures InTime(s.(phase := Ticking(clock, SelectRows(s.jobs, order), false)), horizon)
  {
    var t := s.(phase := Ticking(clock, SelectRows(s.jobs, order), false));
    Timestamp.FourDigitYears(clock);
    forall id | id in t.jobs ensures RowTimely(t, id, horizon) { assert RowTimely(s, id, horizon); }
    forall i | 0 <= i < |order| ensures EntryTimely(t, t.phase.due[i], clock, horizon) {
      assert order[i] in order && RowTimely(s, order[i], horizon) && Due(s.jobs[order[i]], clock);
      TextSelectsDueRows(s.jobs[order[i]], clock);
    }
  }

  lemma AddInTime(s: State, a: Action, horizon: Instant)
    requires Inv(s) && InTime(s, horizon) && a.Add? && Step(s, a).Some? && Within(a.clock, horizon)
    ensures InTime(Step(s, a).value, horizon)
  {
    hide SlotOf, ComputeNextRun, Follows, Timely;
    var t := Step(s, a).value;
    if ComputeNextRun(a.schedule, a.clock).At? && Timely(a.schedule, horizon)
      { TimelyNext(a.schedule, a.clock, horizon); }
    forall id | id in t.jobs ensures RowTimely(t, id, horizon) { if id != a.id { assert RowTimely(s, id, horizon); } }
    if s.phase.Ticking? {
      forall i | 0 <= i < |s.phase.due| ensures EntryTimely(t, s.phase.due[i], s.phase.now, horizon) {
        assert EntryTimely(s, s.phase.due[i], s.phase.now, horizon);
      }
    }
  }

  lemma QuietInTime(s: State, t: State, horizon: Instant)
    requires InTime(s, horizon) && t.log == s.log && (t.phase == s.phase || !t.phase.Ticking?)
    requires forall id :: id in t.jobs ==> id in s.jobs && t.jobs[id].schedule == s.jobs[id].schedule &&
                                           t.jobs[id].nextRun == s.jobs[id].nextRun
    ensures InTime(t, horizon)
  {
    hide Follows, Timely;
    forall id | id in t.jobs ensures RowTimely(t, id, horizon) { assert RowTimely(s, id, horizon); }
    if t.phase.Ticking? {
      forall i | 0 <= i < |t.phase.due| ensures EntryTimely(t, t.phase.due[i], t.phase.now, horizon) {
        assert EntryTimely(s, s.phase.due[i], s.phase.now, horizon);
      }
    }
  }

  lemma StartInTime(s: State, clock: Instant, open: bool, horizon: Instant)
    requires InTime(s, horizon) && s.phase.Stopped?
    ensures InTime(s.(jobs := MarkMissed(s.jobs, clock), phase := Idle, open := open), horizon)
  {
    hide InTime, Overdue;
    QuietInTime(s, s.(jobs := MarkMissed(s.jobs, clock), phase := Idle, open := open), horizon);
  }

  lemma StepInTime(s: State, a: Action, horizon: Instant)
    requires Inv(s) && InTime(s, horizon) && Step(s, a).Some? && ClockWithin(a, horizon) && horizon < YEAR_10000
    ensures InTime(Step(s, a).value, horizon)
  {
    hide Inv, InTime, MarkMissed, ComputeNextRun, Panics, IsDueOrder, FireOne, SendStep, SelectRows;
    match a {
      case FireNext =>
        if Panics(s.phase.due[0].row, s.phase.now) { QuietInTime(s, s.(phase := Dead), horizon); }
        else { FireInTime(s, horizon); }
      case Send => SendInTime(s, horizon);
      case Select(clock, order) => SelectInTime(s, clock, order, horizon);
      case Add(_, _, _, _, _, _) => AddInTime(s, a, horizon);
      case Start(clock, open) => StartInTime(s, clock, open, horizon);
      case _ => QuietInTime(s, Step(s, a).value, horizon);
    }
  }

  lemma {:induction false} RunInTime(actions: seq<Action>, horizon: Instant)
    requires Run(INITIAL, actions).Some? && ClocksWithin(actions, horizon) && horizon < YEAR_10000
    ensures InTime(Run(INITIAL, actions).value, horizon)
  {
    if actions != [] {
      var front := actions[..|actions| - 1];
      assert ClockWithin(actions[|actions| - 1], horizon);
      RunInTime(front, horizon);
      RunKeepsInv(INITIAL, front);
      StepInTime(Run(INITIAL, front).value, actions[|actions| - 1], horizon);
    }
  }

  // ---------------------------------------------------------------------
  // What every run of the scheduler does
  // ---------------------------------------------------------------------

  ghost predicate SlotsIncrease(log: seq<Fire>, schedule: Schedule) {
    forall i, j :: 0 <= i < j < |log| && log[i].job.id == log[j].job.id && log[i].job.schedule == schedule ==>
      log[i].slot < log[j].slot
  }

  /** In every run whose clocks, in whatever order, lie in the years 0 to 9999 and up to a horizon: a job
      whose next runs stay later than the clock and before the year 10000 fires for strictly increasing
      slots, so for each of its calendar slots at most once; never before the slot; and an interval job's
      firings are at least its interval apart. */
  lemma FiringsMoveForward(actions: seq<Action>, horizon: Instant)
    requires Run(INITIAL, actions).Some? && ClocksWithin(actions, horizon) && horizon < YEAR_10000
    ensures var log := Run(INITIAL, actions).value.log;
            forall i, j :: 0 <= i < j < |log| && log[i].job.id == log[j].job.id &&
                           Timely(log[i].job.schedule, horizon) ==>
              log[i].slot < log[j].slot &&
              (log[i].job.schedule.Interval? ==>
                 log[j].job.lastRun - log[i].job.lastRun >= log[i].job.schedule.everySecs as int * SECOND)
    ensures var log := Run(INITIAL, actions).value.log;
            forall i :: 0 <= i < |log| ==>
              SlotOf(log[i].job.schedule, log[i].slot) &&
              (Timely(log[i].job.schedule, horizon) ==> log[i].slot <= log[i].job.lastRun)
  {
    hide Timely, SlotOf;
    RunKeepsInv(INITIAL, actions);
    RunInTime(actions, horizon);
  }

  /** One firing at most, and none early, of the jobs with a one-shot schedule. */
  ghost predicate FiresOnce(log: seq<Fire>, at: Instant) {
    forall i, j :: 0 <= i < |log| && 0 <= j < |log| && log[i].job.id == log[j].job.id &&
                   log[i].job.schedule == Once(at) ==>
      i == j && log[i].job.lastRun >= at
  }

  lemma OnceFiresOnce(actions: seq<Action>, at: Instant, horizon: Instant)
    requires Run(INITIAL, actions).Some? && ClocksWithin(actions, horizon) && YEAR_0 <= horizon < YEAR_10000
    requires at < YEAR_10000
    ensures FiresOnce(Run(INITIAL, actions).value.log, at)
  {
    assert Timely(Once(at), horizon);
    RunKeepsInv(INITIAL, actions);
    FiringsMoveForward(actions, horizon);
    var log := Run(INITIAL, actions).value.log;
    hide Timely;
    forall i, j | 0 <= i < |log| && 0 <= j < |log| && log[i].job.id == log[j].job.id && log[i].job.schedule == Once(at)
      ensures i == j && log[i].job.lastRun >= at
    {
      assert log[j].job.schedule == Once(at);
      assert log[i].slot == at && log[j].slot == at;
    }
  }

  /** The run count of a live row is the number of its firings, each firing carries its own
      number, and no job with a limit fires more often than it allows (a limit of 0 allows one). */
  lemma RunCountsAreFirings(actions: seq<Action>)
    requires Run(INITIAL, actions).Some?
    ensures var s := Run(INITIAL, actions).value;
            (forall id :: id in s.jobs ==> s.jobs[id].runCount == Count(s.log, id)) &&
            (forall i :: 0 <= i < |s.log| ==>
               s.log[i].job.runCount == Count(s.log[..i], s.log[i].job.id) + 1 &&
               (s.log[i].job.maxRuns.Some? ==> s.log[i].job.runCount <= Limit(s.log[i].job.maxRuns)))
  {
    RunKeepsInv(INITIAL, actions);
    var s := Run(INITIAL, actions).value;
    forall id | id in s.jobs ensures s.jobs[id].runCount == Count(s.log, id) { assert RowOk(s, id); }
  }

  // --- a job goes on ---------------------------------------------------------

  /** One firing in a run does to its row, if it is still there, what firing is to do, touches no other
      row, and is reported by the job it sends. */
  lemma FiringGoesOn(s: State)
    requires Inv(s) && CanFire(s) && !Panics(s.phase.due[0].row, s.phase.now)
    ensures var (t, id) := (FireStep(s), s.phase.due[0].row.id);
            Step(s, FireNext) == Some(t) && t.jobs.Keys == s.jobs.Keys &&
            (forall other :: other in s.jobs && other != id ==> t.jobs[other] == s.jobs[other]) &&
            (id in s.jobs ==> GoesOn(s.jobs[id], s.phase.now, t.jobs[id])) &&
            (id in s.jobs ==> Reports(t.log[|s.log|].job, id, s.phase.now, t.jobs[id]))
  {
    var e := s.phase.due[0];
    assert EntryOk(s, e);
    if e.row.id in s.jobs { FiredRowGoesOn(e.row.id, s.jobs[e.row.id], s.phase.now); }
    hide GoesOn, FireRow, Fired, Panics, SlotOf;
  }

  /** Outside its ticks a run changes the table as the engine's operations do: a start marks the overdue rows
      missed, the handle adds one new row or removes one, and nothing else changes it. */
  lemma TableChanges(s: State, a: Action)
    requires Inv(s) && Step(s, a).Some? && !a.FireNext?
    ensures var t := Step(s, a).value;
            match a
            case Start(clock, _) =>
              t.jobs.Keys == s.jobs.Keys &&
              (Timestamp.FourDigitYear(clock) ==> forall id :: id in s.jobs ==>
                 t.jobs[id] == if OverdueInTime(s.jobs[id], clock)
                               then s.jobs[id].(status := Missed, updatedAt := clock) else s.jobs[id])
            case Add(id, name, schedule, action, maxRuns, clock) =>
              id !in s.jobs && id in t.jobs && t.jobs == s.jobs[id := t.jobs[id]] && t.jobs[id].maxRuns == maxRuns &&
              IsNewRow(t.jobs[id].(maxRuns := None), name, schedule, action, clock)
            case Remove(id) => t.jobs == s.jobs - {id}
            case _ => t.jobs == s.jobs
  {
    hide Inv, ComputeNextRun, IsDueOrder, SelectRows, IsNext, MarkMissed, OverdueInTime, NewRow;
    match a {
      case Start(clock, _) => MissedRows(s.jobs, clock);
      case Add(id, name, schedule, action, maxRuns, clock) =>
        JobsAreUsed(s);
        AddedRowIsNew(name, schedule, action, clock);
        NewRowHasNoLimit(name, schedule, action, clock);
      case Send => SendSameFirings(s);
      case _ =>
    }
  }

  lemma MissedRows(jobs: Table, clock: Instant)
    ensures MarkMissed(jobs, clock).Keys == jobs.Keys
    ensures Timestamp.FourDigitYear(clock) ==> forall id :: id in jobs ==>
              MarkMissed(jobs, clock)[id] ==
              if OverdueInTime(jobs[id], clock) then jobs[id].(status := Missed, updatedAt := clock) else jobs[id]
  {
    if Timestamp.FourDigitYear(clock) {
      forall id | id in jobs ensures Overdue(jobs[id], clock) <==> OverdueInTime(jobs[id], clock) {
        TextSelectsDueRows(jobs[id], clock);
      }
    }
    hide Overdue, OverdueInTime;
  }

  lemma JobsAreUsed(s: State)
    requires Inv(s)
    ensures forall id :: id in s.jobs ==> id in s.used
  {
    forall id | id in s.jobs ensures id in s.used { assert RowOk(s, id); }
  }

  lemma NewRowHasNoLimit(name: string, schedule: Schedule, action: string, clock: Instant)
    ensures NewRow(name, schedule, action, clock).maxRuns == None
  {}

  /** A row holds the next run its schedule means, from the instant it last fired or else was added; only
      at its limit it holds none.  It is completed exactly when it has fired and holds none. */
  ghost predicate HoldsNext(row: Row) {
    row.schedule.Decoded? && row.status in {Pending, Completed, Missed} &&
    (row.status == Completed <==> row.lastRun.Some? && row.nextRun.None?) &&
    (row.lastRun.None? ==> row.runCount == 0) &&
    (if row.lastRun.Some? && row.maxRuns.Some? && row.runCount >= row.maxRuns.value then row.nextRun.None?
     else IsNext(row.schedule.schedule, if row.lastRun.Some? then row.lastRun.value else row.createdAt, row.nextRun))
  }

  ghost predicate AllHoldNext(s: State) { forall id :: id in s.jobs ==> HoldsNext(s.jobs[id]) }

  lemma FiredHoldsNext(was: Row, now: Instant, row: Row)
    requires GoesOn(was, now, row) && HoldsNext(was)
    ensures HoldsNext(row)
  {
    hide IsNext;
  }

  lemma AddedHoldsNext(s: State, a: Action)
    requires a.Add? && !ComputeNextRun(a.schedule, a.clock).Overflow?
    ensures HoldsNext(NewRow(a.name, a.schedule, a.action, a.clock).(maxRuns := a.maxRuns))
  {
    AddedRowIsNew(a.name, a.schedule, a.action, a.clock);
    hide IsNext, ComputeNextRun;
  }

  lemma MissedHoldsNext(jobs: Table, clock: Instant)
    requires forall id :: id in jobs ==> HoldsNext(jobs[id])
    ensures MarkMissed(jobs, clock).Keys == jobs.Keys
    ensures forall id :: id in jobs ==> HoldsNext(MarkMissed(jobs, clock)[id])
  {
    hide IsNext, Timestamp.TextBefore;
  }

  lemma StepHoldsNext(s: State, a: Action)
    requires Inv(s) && AllHoldNext(s) && Step(s, a).Some?
    ensures AllHoldNext(Step(s, a).value)
  {
    hide Inv, MarkMissed, ComputeNextRun, Panics, IsDueOrder, FireOne, SelectRows, HoldsNext, NewRow;
    match a {
      case FireNext =>
        if !Panics(s.phase.due[0].row, s.phase.now) {
          FiringGoesOn(s);
          var id := s.phase.due[0].row.id;
          if id in s.jobs { FiredHoldsNext(s.jobs[id], s.phase.now, FireStep(s).jobs[id]); }
        }
      case Send => SendSameFirings(s);
      case Add(_, _, _, _, _, _) => AddedHoldsNext(s, a);
      case Start(clock, _) => MissedHoldsNext(s.jobs, clock);
      case _ =>
    }
  }

  /** In every run every row holds the next run its schedule means: a repeating job below its limit is
      never completed, and goes on from the instant it last fired. */
  lemma {:induction false} JobsGoOn(actions: seq<Action>)
    requires Run(INITIAL, actions).Some?
    ensures AllHoldNext(Run(INITIAL, actions).value)
  {
    if actions != [] {
      var front := actions[..|actions| - 1];
      JobsGoOn(front);
      RunKeepsInv(INITIAL, front);
      StepHoldsNext(Run(INITIAL, front).value, actions[|actions| - 1]);
    }
  }

  // --- removal ------------------------------------------------------------

  predicate InFlight(s: State, id: JobId) {
    s.phase.Ticking? && exists i :: 0 <= i < |s.phase.due| && s.phase.due[i].row.id == id
  }

  function Budget(s: State, id: JobId): nat { Count(s.log, id) + (if InFlight(s, id) then 1 else 0) }

  lemma RemovedStep(s: State, a: Action, id: JobId)
    requires Inv(s) && Step(s, a).Some? && id in s.used && id !in s.jobs
    ensures var t := Step(s, a).value; id in t.used && id !in t.jobs && Budget(t, id) <= Budget(s, id)
  {
    hide Inv, Overdue, Panics, SlotOf, FireStep, SendStep, ComputeNextRun;
    var t := Step(s, a).value;
    match a {
      case FireNext => RemovedFire(s, id);
      case Send => RemovedSend(s, id);
      case Select(_, order) =>
        forall i | 0 <= i < |t.phase.due| ensures t.phase.due[i].row.id in s.jobs { assert order[i] in order; }
      case _ =>
    }
  }

  lemma RemovedFire(s: State, id: JobId)
    requires Inv(s) && CanFire(s) && id !in s.jobs
    ensures var t := FireStep(s);
            t.used == s.used && t.phase.Ticking? && id !in t.jobs && Budget(t, id) <= Budget(s, id)
  {
    hide SlotOf, RowOk, LogOk, EntryOk, FireRow;
    var t := FireStep(s);
    CountAppend(s.log, t.log[|s.log|], id);
    assert InFlight(s, s.phase.due[0].row.id);
    assert forall i :: 0 <= i < |t.phase.due| ==> t.phase.due[i] == s.phase.due[i + 1];
  }

  lemma RemovedSend(s: State, id: JobId)
    requires s.phase.Ticking? && s.log != []
    ensures var t := SendStep(s); t.used == s.used && t.jobs == s.jobs && Budget(t, id) == Budget(s, id)
  {
    SendSameFirings(s);
    SendPhase(s);
    hide SendStep;
    SameCounts(s.log, SendStep(s).log, id);
  }

  /** A removed job never comes back, and fires at most once more: only if the tick in
      progress had already selected it. */
  lemma {:induction false} RemovedFiresAtMostOnceMore(s: State, actions: seq<Action>, id: JobId)
    requires Inv(s) && Run(s, actions).Some? && id in s.used && id !in s.jobs
    ensures var t := Run(s, actions).value;
            id in t.used && id !in t.jobs && Budget(t, id) <= Budget(s, id) &&
            Count(t.log, id) <= Count(s.log, id) + (if InFlight(s, id) then 1 else 0)
  {
    if actions != [] {
      var front := actions[..|actions| - 1];
      RemovedFiresAtMostOnceMore(s, front, id);
      RunKeepsInv(s, front);
      RemovedStep(Run(s, front).value, actions[|actions| - 1], id);
    }
  }

  // --- terminal states ----------------------------------------------------

  ghost predicate UnchangedOrGone(row: Row, s: State, id: JobId) {
    id in s.used && (id in s.jobs ==> s.jobs[id] == row)
  }

  lemma TerminalStep(row: Row, s: State, a: Action, id: JobId)
    requires Inv(s) && Step(s, a).Some?
    requires row.status in {Completed, Missed} && UnchangedOrGone(row, s, id)
    ensures UnchangedOrGone(row, Step(s, a).value, id)
  {
    if a.FireNext? { assert EntryOk(s, s.phase.due[0]); }
  }

  /** A completed or missed row is never updated again: it stays as it is until it is removed. */
  lemma {:induction false} TerminalRowsStay(s: State, actions: seq<Action>, id: JobId)
    requires Inv(s) && Run(s, actions).Some? && id in s.jobs && s.jobs[id].status in {Completed, Missed}
    ensures UnchangedOrGone(s.jobs[id], Run(s, actions).value, id)
  {
    assert RowOk(s, id);
    if actions != [] {
      var front := actions[..|actions| - 1];
      TerminalRowsStay(s, front, id);
      RunKeepsInv(s, front);
      TerminalStep(s.jobs[id], Run(s, front).value, actions[|actions| - 1], id);
    }
  }

  // --- the delivery channel -------------------------------------------------

  /** The firings the channel took, in order. */
  function Taken(log: seq<Fire>): seq<Fire> {
    if log == [] then []
    else Taken(log[..|log| - 1]) + (if log[|log| - 1].accepted then [log[|log| - 1]] else [])
  }

  function Dropped(log: seq<Fire>): nat {
    if log == [] then 0 else Dropped(log[..|log| - 1]) + (if log[|log| - 1].accepted then 0 else 1)
  }

  function FiresOf(gone: seq<Departure>): (fires: seq<Fire>)
    ensures |fires| == |gone| && forall i :: 0 <= i < |gone| ==> fires[i] == gone[i].fire
  {
    seq(|gone|, i requires 0 <= i < |gone| => gone[i].fire)
  }

  ghost predicate ChannelOk(s: State) {
    Taken(s.log) == FiresOf(s.gone) + s.queue && |s.queue| <= CAPACITY &&
    (s.phase.Ticking? && s.phase.sending ==> s.log != [] && !s.log[|s.log| - 1].accepted)
  }

  lemma TakenOne(log: seq<Fire>, fire: Fire)
    ensures Taken(log + [fire]) == if fire.accepted then Taken(log) + [fire] else Taken(log)
  {
    assert (log + [fire])[..|log|] == log;
  }

  /** The channel takes the job just fired. */
  lemma SendKeepsChannel(s: State)
    requires ChannelOk(s) && s.phase.Ticking? && s.phase.sending
    ensures ChannelOk(SendStep(s))
  {
    var (front, last) := (s.log[..|s.log| - 1], s.log[|s.log| - 1]);
    assert s.log == front + [last];
    TakenOne(front, last);
    TakenOne(front, last.(accepted := true));
    Associative(FiresOf(s.gone), s.queue, [last.(accepted := true)]);
    hide Taken;
  }

  /** A job is taken exactly when the channel has a receiver and room for one of its 256. */
  lemma TakenExactly(s: State)
    requires Step(s, Send).Some?
    ensures var (t, fire) := (Step(s, Send).value, s.log[|s.log| - 1].(accepted := true));
            t.jobs == s.jobs && t.log[..|s.log| - 1] == s.log[..|s.log| - 1] &&
            if s.open && |s.queue| < 256 then t.queue == s.queue + [fire] && t.log == s.log[..|s.log| - 1] + [fire]
            else t.queue == s.queue && t.log == s.log
  {}

  lemma ChannelStep(s: State, a: Action)
    requires ChannelOk(s) && Step(s, a).Some?
    ensures ChannelOk(Step(s, a).value)
  {
    hide Taken;
    var t := Step(s, a).value;
    match a {
      case FireNext => if t.log != s.log { TakenOne(s.log, t.log[|s.log|]); }
      case Send => SendKeepsChannel(s);
      case Deliver => assert FiresOf(t.gone) + t.queue == FiresOf(s.gone) + s.queue;
      case CloseChannel => assert FiresOf(t.gone) + t.queue == FiresOf(s.gone) + s.queue;
      case Crash => assert FiresOf(t.gone) + t.queue == FiresOf(s.gone) + s.queue;
      case _ =>
    }
  }

  lemma {:induction false} TakenOrDropped(log: seq<Fire>)
    ensures |log| == |Taken(log)| + Dropped(log)
  {
    if log != [] { TakenOrDropped(log[..|log| - 1]); }
  }

  /** Every firing is queued, gone from the channel, or never got into it, and those the channel took
      leave it and wait in it in the order they fired. */
  lemma EveryFiringIsAccountedFor(actions: seq<Action>)
    requires Run(INITIAL, actions).Some?
    ensures var s := Run(INITIAL, actions).value;
            Taken(s.log) == FiresOf(s.gone) + s.queue && |s.queue| <= CAPACITY &&
            |s.log| == Dropped(s.log) + |s.gone| + |s.queue|
  {
    RunKeepsChannel(actions);
    TakenOrDropped(Run(INITIAL, actions).value.log);
  }

  lemma {:induction false} RunKeepsChannel(actions: seq<Action>)
    requires Run(INITIAL, actions).Some?
    ensures ChannelOk(Run(INITIAL, actions).value)
  {
    if actions != [] {
      RunKeepsChannel(actions[..|actions| - 1]);
      ChannelStep(Run(INITIAL, actions[..|actions| - 1]).value, actions[|actions| - 1]);
    }
  }

  // --- an undisturbed tick ----------------------------------------------------

  /** The updates and sends of `n` rows. */
  function FireAndSend(n: nat): seq<Action> {
    if n == 0 then [] else FireAndSend(n - 1) + [FireNext] + [Send]
  }

  function RowsOf(due: seq<Selected>): (rows: seq<DueRow>)
    ensures |rows| == |due| && forall i :: 0 <= i < |due| ==> rows[i] == due[i].row
  {
    seq(|due|, i requires 0 <= i < |due| => due[i].row)
  }

  ghost predicate Undisturbed(s: State) {
    s.phase.Ticking? && !s.phase.sending &&
    forall i :: 0 <= i < |s.phase.due| ==>
      s.phase.due[i].row.schedule.Decoded? && !Panics(s.phase.due[i].row, s.phase.now)
  }

  lemma {:induction false} QuietFires(s: State, k: nat)
    requires Undisturbed(s) && k <= |s.phase.due|
    ensures var r := Run(s, FireAndSend(k));
            r.Some? && r.value.phase == Ticking(s.phase.now, s.phase.due[k..], false) &&
            r.value.jobs == FireAll(s.jobs, RowsOf(s.phase.due)[..k], s.phase.now)
  {
    hide FireAll, Run, Undisturbed, FireAndSend;
    if k == 0 {
      NoQuietFires(s);
    } else {
      QuietFires(s, k - 1);
      OneMoreQuietFire(s, k - 1, Run(s, FireAndSend(k - 1)).value);
    }
  }

  lemma NoQuietFires(s: State)
    requires Undisturbed(s)
    ensures Run(s, FireAndSend(0)) == Some(s) && s.phase == Ticking(s.phase.now, s.phase.due[0..], false)
    ensures FireAll(s.jobs, RowsOf(s.phase.due)[..0], s.phase.now) == s.jobs
  {
    hide Panics, FireOne;
    assert s.phase.due[0..] == s.phase.due;
  }

  lemma OneMoreQuietFire(s: State, k: nat, before: State)
    requires Undisturbed(s) && k < |s.phase.due| && Run(s, FireAndSend(k)) == Some(before)
    requires before.phase == Ticking(s.phase.now, s.phase.due[k..], false)
    requires before.jobs == FireAll(s.jobs, RowsOf(s.phase.due)[..k], s.phase.now)
    ensures var r := Run(s, FireAndSend(k + 1));
            r.Some? && r.value.phase == Ticking(s.phase.now, s.phase.due[k + 1..], false) &&
            r.value.jobs == FireAll(s.jobs, RowsOf(s.phase.due)[..k + 1], s.phase.now)
  {
    hide FireAll, FireOne, Run, Panics, Step, FireStep, SendStep;
    var rows := RowsOf(s.phase.due);
    assert before.phase.due[0] == s.phase.due[k] && before.phase.due[1..] == s.phase.due[k + 1..];
    OneQuietFire(before);
    RunAppend(s, FireAndSend(k), FireNext);
    RunAppend(s, FireAndSend(k) + [FireNext], Send);
    assert rows[..k + 1] == rows[..k] + [rows[k]];
    FireAllOne(s.jobs, rows[..k], rows[k], s.phase.now);
  }

  /** One row's update and send. */
  lemma OneQuietFire(s: State)
    requires CanFire(s) && !Panics(s.phase.due[0].row, s.phase.now)
    ensures Step(s, FireNext) == Some(FireStep(s)) && Step(FireStep(s), Send) == Some(SendStep(FireStep(s)))
    ensures SendStep(FireStep(s)).phase == Ticking(s.phase.now, s.phase.due[1..], false)
    ensures SendStep(FireStep(s)).jobs == FireOne(s.jobs, s.phase.due[0].row, s.phase.now)
  {
    hide Panics, FireOne, Fired;
  }

  lemma SelectedIsDueList(jobs: Table, order: seq<JobId>, clock: Instant)
    requires IsDueOrder(jobs, order, clock)
    ensures IsDueList(jobs, RowsOf(SelectRows(jobs, order)), clock)
  {
    var rows := RowsOf(SelectRows(jobs, order));
    forall i | 0 <= i < |rows| ensures rows[i].id == order[i] && IsDueRow(jobs, rows[i], clock) {
      assert order[i] in order;
    }
    forall id | id in jobs && Due(jobs[id], clock) ensures Columns(id, jobs[id]) in rows {
      assert id in order;
      var i :| 0 <= i < |order| && order[i] == id;
      assert rows[i] == Columns(id, jobs[id]);
    }
  }

  lemma QuietTick(s: State)
    requires Undisturbed(s)
    ensures var r := Run(s, FireAndSend(|s.phase.due|) + [EndTick]);
            r.Some? && r.value.phase == Idle &&
            r.value.jobs == FireAll(s.jobs, RowsOf(s.phase.due), s.phase.now)
  {
    var n := |s.phase.due|;
    QuietFires(s, n);
    RunAppend(s, FireAndSend(n), EndTick);
    assert RowsOf(s.phase.due)[..n] == RowsOf(s.phase.due);
  }

  /** A tick that nothing disturbs and that does not panic, taken step by step in any order the query
      chose, is the engine's tick. */
  lemma UndisturbedTickIsTick(s: State, clock: Instant, order: seq<JobId>)
    requires Inv(s) && s.phase.Idle? && IsDueOrder(s.jobs, order, clock) && !TickPanics(s.jobs, clock)
    ensures var t := Step(s, Select(clock, order)).value;
            var r := Run(t, FireAndSend(|order|) + [EndTick]);
            r.Some? && r.value.phase == Idle && r.value.jobs == TickTable(s.jobs, clock)
  {
    hide SlotOf, Timestamp.TextBefore, Panics;
    var t := s.(phase := Ticking(clock, SelectRows(s.jobs, order), false));
    forall i | 0 <= i < |t.phase.due|
      ensures t.phase.due[i].row.schedule.Decoded? && !Panics(t.phase.due[i].row, clock)
    {
      assert order[i] in order && RowOk(s, order[i]);
    }
    hide Run, FireAll, TickTable;
    QuietTick(t);
    SelectedIsDueList(s.jobs, order, clock);
    FireAllIsTick(s.jobs, RowsOf(t.phase.due), clock);
  }

  // --- when slots do not increase -------------------------------------------

  lemma RunAppend(s: State, actions: seq<Action>, a: Action)
    requires Run(s, actions).Some?
    ensures Run(s, actions + [a]) == Step(Run(s, actions).value, a)
  {
    assert (actions + [a])[..|actions|] == actions;
  }

  lemma RunNothing(s: State)
    ensures Run(s, []) == Some(s)
  {}

  /** One pending job, due at `slot`, that has fired for it `k` times, at instant `clock`. */
  ghost predicate Stuck(s: State, schedule: Schedule, slot: Instant, clock: Instant, k: nat) {
    s.phase == Idle && s.jobs.Keys == {"job"} &&
    (var row := s.jobs["job"];
     row.status == Pending && row.nextRun == Some(slot) && row.schedule == Decoded(schedule) && row.maxRuns == None) &&
    |s.log| == k &&
    forall i :: 0 <= i < k ==>
      s.log[i].job.id == "job" && s.log[i].job.schedule == schedule && s.log[i].slot == slot &&
      s.log[i].job.lastRun == clock
  }

  /** A slot the due query selects although, or because, the next run found then is that slot again. */
  ghost predicate Sticks(schedule: Schedule, slot: Instant, clock: Instant) {
    Timestamp.FourDigitYear(clock) && (slot <= clock || slot >= YEAR_10000) &&
    ComputeNextRun(schedule, clock) == At(slot)
  }

  /** What the query finds. */
  function StuckSelected(s: State, slot: Instant, clock: Instant): State
    requires "job" in s.jobs
  {
    s.(phase := Ticking(clock, [Selected(Columns("job", s.jobs["job"]), slot)], false))
  }

  lemma StuckSelect(s: State, schedule: Schedule, slot: Instant, clock: Instant, k: nat)
    requires Stuck(s, schedule, slot, clock, k) && Sticks(schedule, slot, clock)
    ensures Step(s, Select(clock, ["job"])) == Some(StuckSelected(s, slot, clock))
  {
    hide ComputeNextRun, Timestamp.TextBefore;
    TextSelectsDueRows(s.jobs["job"], clock);
    SelectOne(s, clock);
  }

  /** A query that finds the one job there is. */
  lemma SelectOne(s: State, clock: Instant)
    requires s.phase == Idle && s.jobs.Keys == {"job"} && Due(s.jobs["job"], clock)
    ensures Step(s, Select(clock, ["job"])) == Some(StuckSelected(s, s.jobs["job"].nextRun.value, clock))
  {
    hide Timestamp.TextBefore;
    assert IsDueOrder(s.jobs, ["job"], clock);
    assert SelectRows(s.jobs, ["job"]) == [Selected(Columns("job", s.jobs["job"]), s.jobs["job"].nextRun.value)];
  }

  lemma StuckFire(s: State, schedule: Schedule, slot: Instant, clock: Instant, k: nat)
    requires Stuck(s, schedule, slot, clock, k) && Sticks(schedule, slot, clock)
    ensures var t := StuckSelected(s, slot, clock);
            CanFire(t) && Step(t, FireNext) == Some(FireStep(t)) &&
            var u := FireStep(t);
            u.phase == Ticking(clock, [], true) && u.log != [] && Stuck(u.(phase := Idle), schedule, slot, clock, k + 1)
  {
    hide ComputeNextRun;
  }

  lemma StuckSend(u: State, schedule: Schedule, slot: Instant, clock: Instant, k: nat)
    requires u.phase == Ticking(clock, [], true) && u.log != [] && Stuck(u.(phase := Idle), schedule, slot, clock, k)
    ensures var v := SendStep(u);
            Step(u, Send) == Some(v) && Step(v, EndTick) == Some(v.(phase := Idle)) &&
            Stuck(v.(phase := Idle), schedule, slot, clock, k)
  {
    SendSameFirings(u);
    SendPhase(u);
    hide SendStep;
  }

  /** A tick fires it again, for the same slot. */
  lemma StuckTick(s: State, schedule: Schedule, slot: Instant, clock: Instant, k: nat)
      returns (t: State, u: State, v: State, r: State)
    requires Stuck(s, schedule, slot, clock, k) && Sticks(schedule, slot, clock)
    ensures Step(s, Select(clock, ["job"])) == Some(t) && Step(t, FireNext) == Some(u) && Step(u, Send) == Some(v) &&
            Step(v, EndTick) == Some(r)
    ensures Stuck(r, schedule, slot, clock, k + 1)
  {
    assert "job" in s.jobs;
    hide Stuck, Sticks, SendStep, Step, FireStep;
    StuckSelect(s, schedule, slot, clock, k);
    StuckFire(s, schedule, slot, clock, k);
    t := StuckSelected(s, slot, clock);
    u := FireStep(t);
    StuckSend(u, schedule, slot, clock, k + 1);
    v := SendStep(u);
    r := v.(phase := Idle);
  }

  lemma StuckRun(s: State, earlier: seq<Action>, m: State, schedule: Schedule, slot: Instant, clock: Instant, k: nat)
      returns (actions: seq<Action>, r: State)
    requires Run(s, earlier) == Some(m) && Stuck(m, schedule, slot, clock, k) && Sticks(schedule, slot, clock)
    requires forall i :: 0 <= i < |earlier| ==> ClockWithin(earlier[i], clock)
    ensures Run(s, actions) == Some(r) && Stuck(r, schedule, slot, clock, k + 1)
    ensures ClocksWithin(actions, clock)
  {
    Timestamp.FourDigitYears(clock);
    hide ComputeNextRun, Run, Step, Stuck;
    var t, u, v;
    t, u, v, r := StuckTick(m, schedule, slot, clock, k);
    RunAppend(s, earlier, Select(clock, ["job"]));
    RunAppend(s, earlier + [Select(clock, ["job"])], FireNext);
    RunAppend(s, earlier + [Select(clock, ["job"])] + [FireNext], Send);
    RunAppend(s, earlier + [Select(clock, ["job"])] + [FireNext] + [Send], EndTick);
    actions := earlier + [Select(clock, ["job"])] + [FireNext] + [Send] + [EndTick];
  }

  /** A job whose next run, found at some instant, is not later than it, or is in the year 10000 or
      later, is fired twice for that one slot by two ticks that read that clock. */
  lemma StuckSlotRefires(schedule: Schedule, slot: Instant, clock: Instant) returns (actions: seq<Action>)
    requires Sticks(schedule, slot, clock)
    ensures Run(INITIAL, actions).Some? && ClocksWithin(actions, clock)
    ensures var log := Run(INITIAL, actions).value.log;
            |log| == 2 && log[0].job.id == log[1].job.id &&
            forall i :: 0 <= i < 2 ==>
              log[i].job.schedule == schedule && log[i].slot == slot && log[i].job.lastRun == clock
  {
    hide ComputeNextRun, Run;
    Timestamp.FourDigitYears(clock);
    var a := Add("job", "name", schedule, "action", None, clock);
    var s := Step(INITIAL, Start(clock, true)).value;
    var m := Step(s, a).value;
    assert Stuck(m, schedule, slot, clock, 0);
    RunNothing(INITIAL);
    RunAppend(INITIAL, [], Start(clock, true));
    RunAppend(INITIAL, [] + [Start(clock, true)], a);
    var once, t := StuckRun(INITIAL, [] + [Start(clock, true)] + [a], m, schedule, slot, clock, 0);
    var twice, u := StuckRun(INITIAL, once, t, schedule, slot, clock, 1);
    actions := twice;
  }

  /** The slots a schedule fires for increase, in every run whose clocks lie in the years 0 to 9999 and
      up to the horizon, exactly when its interval stays positive through the signed cast and its next
      runs up to the horizon stay before the year 10000 - or it cannot be added at all. */
  lemma SlotsIncreaseExactly(schedule: Schedule, horizon: Instant)
    requires YEAR_0 <= horizon < YEAR_10000 && WellTyped(schedule)
    ensures TimelyCheck(schedule, horizon) <==>
            forall actions :: Run(INITIAL, actions).Some? && ClocksWithin(actions, horizon) ==>
              SlotsIncrease(Run(INITIAL, actions).value.log, schedule)
  {
    hide TimelyCheck, Run;
    TimelyExactly(schedule, horizon);
    if Timely(schedule, horizon) {
      forall actions | Run(INITIAL, actions).Some? && ClocksWithin(actions, horizon)
        ensures SlotsIncrease(Run(INITIAL, actions).value.log, schedule)
      {
        FiringsMoveForward(actions, horizon);
      }
    } else {
      var clock :| Within(clock, horizon) && ComputeNextRun(schedule, clock).At? &&
                   !(clock < ComputeNextRun(schedule, clock).at < YEAR_10000);
      Timestamp.FourDigitYears(clock);
      var actions := StuckSlotRefires(schedule, ComputeNextRun(schedule, clock).at, clock);
      EarlierClocks(actions, clock, horizon);
      assert !SlotsIncrease(Run(INITIAL, actions).value.log, schedule);
    }
  }

  lemma EarlierClocks(actions: seq<Action>, clock: Instant, horizon: Instant)
    requires ClocksWithin(actions, clock) && clock <= horizon
    ensures ClocksWithin(actions, horizon)
  {
    forall i | 0 <= i < |actions| ensures ClockWithin(actions[i], horizon) { assert ClockWithin(actions[i], clock); }
  }

  /** One-shot jobs fire at most once and never early, in all those runs, exactly when their instant is
      before the year 10000. */
  lemma OnceFiresOnceExactly(at: Instant, horizon: Instant)
    requires YEAR_0 <= horizon < YEAR_10000 && Representable(at)
    ensures at < YEAR_10000 <==>
            forall actions :: Run(INITIAL, actions).Some? && ClocksWithin(actions, horizon) ==>
              FiresOnce(Run(INITIAL, actions).value.log, at)
  {
    hide Run;
    if at < YEAR_10000 {
      forall actions | Run(INITIAL, actions).Some? && ClocksWithin(actions, horizon)
        ensures FiresOnce(Run(INITIAL, actions).value.log, at)
      {
        OnceFiresOnce(actions, at, horizon);
      }
    } else {
      Timestamp.FourDigitYears(horizon);
      var actions := StuckSlotRefires(Once(at), at, horizon);
      var log := Run(INITIAL, actions).value.log;
      assert log[0].job.id == log[1].job.id && log[0].job.schedule == Once(at);
      assert !FiresOnce(log, at);
    }
  }

  /** A reminder every 300,000,000,000 seconds is accepted, and its interval stays positive; yet from any
      clock since 1970 it fires at once, and again, some 9,500 years before its slot. */
  lemma FarIntervalFiresAtOnce(clock: Instant) returns (schedule: Schedule, actions: seq<Action>)
    requires 0 <= clock < YEAR_10000
    ensures Recurrence.ParseRecurring(Recurrence.FormatInterval(300_000_000_000)) == Ok(schedule) && Advances(schedule)
    ensures Run(INITIAL, actions).Some? && ClocksWithin(actions, clock)
    ensures var log := Run(INITIAL, actions).value.log;
            |log| == 2 && forall i :: 0 <= i < 2 ==>
              log[i].job.schedule == schedule && log[i].job.lastRun == clock &&
              log[i].slot == clock + 300_000_000_000 * SECOND
  {
    hide Run, Recurrence.ParseRecurring, Recurrence.FormatInterval, Timestamp.FourDigitYear;
    schedule := Interval(300_000_000_000);
    Recurrence.IntervalRoundTrip(300_000_000_000);
    IntervalOverflowsExactly(300_000_000_000, clock);
    Timestamp.FourDigitYears(clock);
    hide ComputeNextRun;
    actions := StuckSlotRefires(schedule, clock + 300_000_000_000 * SECOND, clock);
  }

  /** The longest interval that can be added in 1970 is added then and, being past the year 9999, is due
      at once; the tick two seconds later panics, because by then the sum cannot be held. */
  lemma AddedJobPanicsTick() returns (actions: seq<Action>)
    ensures Run(INITIAL, actions).Some? && Run(INITIAL, actions).value.phase == Dead
  {
    var (longest, clock) := (Interval(8_210_266_876_799), 2 * SECOND);
    IntervalOverflowsExactly(8_210_266_876_799, 0);
    IntervalOverflowsExactly(8_210_266_876_799, clock);
    hide ComputeNextRun, Run;
    var s := Step(INITIAL, Start(0, true)).value;
    var a := Add("job", "name", longest, "action", None, 0);
    var m := Step(s, a).value;
    var t := PanickingTick(m, longest, clock);
    hide Step;
    RunNothing(INITIAL);
    RunAppend(INITIAL, [], Start(0, true));
    RunAppend(INITIAL, [] + [Start(0, true)], a);
    RunAppend(INITIAL, [] + [Start(0, true)] + [a], Select(clock, ["job"]));
    RunAppend(INITIAL, [] + [Start(0, true)] + [a] + [Select(clock, ["job"])], FireNext);
    actions := [] + [Start(0, true)] + [a] + [Select(clock, ["job"])] + [FireNext];
  }

  lemma PanickingTick(m: State, schedule: Schedule, clock: Instant) returns (t: State)
    requires m.phase == Idle && m.jobs.Keys == {"job"} && m.jobs["job"].status == Pending && m.jobs["job"].maxRuns.None?
    requires m.jobs["job"].schedule == Decoded(schedule) && m.jobs["job"].nextRun.Some?
    requires m.jobs["job"].nextRun.value >= YEAR_10000 && YEAR_0 <= clock < YEAR_10000
    requires ComputeNextRun(schedule, clock).Overflow?
    ensures Step(m, Select(clock, ["job"])) == Some(t) && Step(t, FireNext) == Some(t.(phase := Dead))
  {
    hide ComputeNextRun, Timestamp.TextBefore;
    Timestamp.FourDigitYears(clock);
    TextSelectsDueRows(m.jobs["job"], clock);
    SelectOne(m, clock);
    t := StuckSelected(m, m.jobs["job"].nextRun.value, clock);
  }
}
