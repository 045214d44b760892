/** The scheduler's calendar arithmetic (`compute_next_run`).

    An instant is the number of nanoseconds since 1970-01-01T00:00:00Z, so a
    comparison of instants sees the sub-second part exactly as the program's
    own clock values do.  1970-01-01 was a Thursday, three days after Monday. */
module Schedule {
  import opened Prelude

  type Instant = int

  const SECOND: int := 1_000_000_000
  const MINUTE: int := 60_000_000_000
  const HOUR: int := 3_600_000_000_000
  const DAY: int := 86_400_000_000_000

  const TWO_63: int := 0x8000_0000_0000_0000
  const TWO_64: int := 0x1_0000_0000_0000_0000

  /** The largest second count the date library's duration type can hold
      (the largest signed 64-bit count of milliseconds, in whole seconds). */
  const MAX_DURATION_SECS: int := (TWO_63 - 1) / 1000

  /** The date library's first and last instants: the start of the year -262143 and the end of the
      year 262142. */
  const FIRST_INSTANT: Instant := -8_334_601_228_800_000_000_000
  const LAST_INSTANT: Instant := 8_210_266_876_799_999_999_999

  /** The start of the year 0 and of the year 10000: the years between are written with four digits. */
  const YEAR_0: Instant := -62_167_219_200_000_000_000
  const YEAR_10000: Instant := 253_402_300_800_000_000_000

  newtype u8 = x: int | 0 <= x < 0x100
  newtype u64 = x: int | 0 <= x < 0x1_0000_0000_0000_0000

  datatype Schedule =
    | Once(at: Instant)
    | Interval(everySecs: u64)
    | Daily(hour: u8, minute: u8)
    | Weekly(day: u8, hour: u8, minute: u8)
    | Cron(expression: string)

  /** What computing the next run can do: find an instant, find none, or panic because the interval
      does not fit the date library's duration type or the sum leaves the library's range. */
  datatype NextRun = At(at: Instant) | Exhausted | Overflow

  predicate Representable(t: Instant) { FIRST_INSTANT <= t <= LAST_INSTANT }

  /** Adding a duration to an instant panics outside the library's range. */
  function Checked(sum: Instant): NextRun { if Representable(sum) then At(sum) else Overflow }

  function Midnight(t: Instant): Instant { t / DAY * DAY }

  /** Days since Monday. */
  function Weekday(t: Instant): int { (t / DAY + 3) % 7 }

  function HourOf(t: Instant): int { t % DAY / HOUR }

  function MinuteOf(t: Instant): int { t % DAY % HOUR / MINUTE }

  /** The unsigned-to-signed cast of an interval length. */
  function AsI64(x: u64): int {
    if x as int < TWO_63 then x as int else x as int - TWO_64
  }

  /** HH:MM:00 on the day of `t`; `None` when the clock has no such time. */
  function AtTimeOfDay(t: Instant, hour: u8, minute: u8): NextRun {
    if hour <= 23 && minute <= 59
    then At(Midnight(t) + hour as int * HOUR + minute as int * MINUTE)
    else Exhausted
  }

  function ClampDay(day: u8): int { if day > 6 then 6 else day as int }

  function ComputeNextRun(schedule: Schedule, from: Instant): NextRun {
    match schedule
    case Once(at) => if at > from then At(at) else Exhausted
    case Interval(everySecs) =>
      var secs := AsI64(everySecs);
      if -MAX_DURATION_SECS <= secs <= MAX_DURATION_SECS then Checked(from + secs * SECOND) else Overflow
    case Daily(hour, minute) =>
      (match AtTimeOfDay(from, hour, minute)
       case At(candidate) => if candidate > from then At(candidate) else Checked(candidate + DAY)
       case other => other)
    case Weekly(day, hour, minute) =>
      var daysAhead := ClampDay(day) - Weekday(from);
      var candidateDay := if daysAhead < 0 then from + (7 + daysAhead) * DAY else from + daysAhead * DAY;
      if !Representable(candidateDay) then Overflow
      else
        (match AtTimeOfDay(candidateDay, hour, minute)
         case At(candidate) =>
           if candidate > from then At(candidate)
           else Checked(candidate + (if daysAhead <= 0 then 7 else 7 - daysAhead) * DAY)
         case other => other)
    case Cron(_) => Exhausted
  }

  // ---------------------------------------------------------------------
  // What a schedule means, without reference to how the next run is found
  // ---------------------------------------------------------------------

  /** The instants a calendar schedule names. */
  predicate Occurs(schedule: Schedule, t: Instant) {
    match schedule
    case Once(at) => t == at
    case Daily(hour, minute) => OnTheMinute(t, hour, minute)
    case Weekly(day, hour, minute) =>
      Weekday(t) == (if day <= 6 then day as int else 6) && OnTheMinute(t, hour, minute)
    case _ => false
  }

  predicate OnTheMinute(t: Instant, hour: u8, minute: u8) {
    HourOf(t) == hour as int && MinuteOf(t) == minute as int && t % DAY % HOUR % MINUTE == 0
  }

  /** `t` is the first instant after `from` that the schedule names. */
  ghost predicate FirstAfter(schedule: Schedule, from: Instant, t: Instant) {
    t > from && Occurs(schedule, t) && forall u :: from < u < t ==> !Occurs(schedule, u)
  }

  /** Weekdays are counted from Monday, 0, in days of midnight to midnight; 1 January 1970 was a Thursday. */
  lemma WeekdayCounts(t: Instant, u: Instant)
    requires Midnight(t) <= u < Midnight(t) + DAY
    ensures 0 <= Weekday(t) < 7 && Weekday(u) == Weekday(t)
    ensures Weekday(0) == 3 && Weekday(t + DAY) == if Weekday(t) == 6 then 0 else Weekday(t) + 1
  {
    DivModIs(u, DAY, t / DAY, u - Midnight(t));
    DivModUnique(t, DAY);
    DivModIs(t + DAY, DAY, t / DAY + 1, t % DAY);
  }

  /** The cast keeps the low 64 bits and reads them as a signed number. */
  lemma CastIsSigned(x: u64)
    ensures -TWO_63 <= AsI64(x) < TWO_63 && (AsI64(x) - x as int) % TWO_64 == 0
  {}

  /** What the next run from an instant is to be: the first later instant the schedule names, or none
      when it names none; an interval names the instant that is its seconds, read as signed, away. */
  ghost predicate IsNext(schedule: Schedule, from: Instant, next: Option<Instant>) {
    match schedule
    case Interval(everySecs) =>
      next == Some(from + (if everySecs as int < TWO_63 then everySecs as int else everySecs as int - TWO_64) * SECOND)
    case _ =>
      if next.Some? then FirstAfter(schedule, from, next.value) else forall t :: t > from ==> !Occurs(schedule, t)
  }

  function TimeOfDay(hour: u8, minute: u8): int { hour as int * HOUR + minute as int * MINUTE }

  /** An instant is on the minute HH:MM exactly when it is HH hours and MM minutes past its midnight. */
  lemma OnTheMinuteIsTimeOfDay(t: Instant, hour: u8, minute: u8)
    ensures OnTheMinute(t, hour, minute) <==>
            hour <= 23 && minute <= 59 && t == Midnight(t) + TimeOfDay(hour, minute)
  {
    var rest := t % DAY;
    assert t == Midnight(t) + rest && 0 <= rest < DAY;
    DivModUnique(rest, HOUR);
    DivModUnique(rest % HOUR, MINUTE);
    if hour <= 23 && minute <= 59 && rest == TimeOfDay(hour, minute) {
      DivModIs(rest, HOUR, hour as int, minute as int * MINUTE);
      DivModIs(rest % HOUR, MINUTE, minute as int, 0);
    }
  }

  lemma DivModUnique(n: int, d: int)
    requires d == HOUR || d == MINUTE || d == DAY
    ensures n == n / d * d + n % d
  {
  }

  lemma DivModIs(n: int, d: int, q: int, r: int)
    requires d == HOUR || d == MINUTE || d == DAY
    requires n == q * d + r && 0 <= r < d
    ensures n / d == q && n % d == r
  {
  }

  /** A time of day fixes one instant per day, and days are whole. */
  lemma SameTimeOfDay(t: Instant, day: int, hour: u8, minute: u8)
    requires hour <= 23 && minute <= 59 && t == day * DAY + TimeOfDay(hour, minute)
    ensures t / DAY == day && OnTheMinute(t, hour, minute)
  {
    DivModIs(t, DAY, day, TimeOfDay(hour, minute));
    OnTheMinuteIsTimeOfDay(t, hour, minute);
  }

  /** The library's range is whole days, so a time of day stays in it as its day does. */
  lemma WholeDays(from: Instant, day: int, hour: u8, minute: u8)
    requires Representable(from) && day >= from / DAY && hour <= 23 && minute <= 59
    ensures var slot := day * DAY + TimeOfDay(hour, minute);
            (slot <= LAST_INSTANT <==> day <= 95_026_236) && (slot > from ==> slot >= FIRST_INSTANT)
    ensures from + (day - from / DAY) * DAY <= LAST_INSTANT <==> day <= 95_026_236
  {
    DivModUnique(from, DAY);
  }

  /** The least instant after `from` at the time of day, within a day; it is the next run, unless the
      library cannot hold it. */
  lemma DailyIsFirst(hour: u8, minute: u8, from: Instant) returns (slot: Instant)
    requires hour <= 23 && minute <= 59
    ensures from < slot <= from + DAY && FirstAfter(Daily(hour, minute), from, slot)
    ensures Representable(from) ==> ComputeNextRun(Daily(hour, minute), from) == Checked(slot)
    ensures ComputeNextRun(Daily(hour, minute), from) in {At(slot), Overflow}
  {
    var today := from / DAY;
    var landing := if today * DAY + TimeOfDay(hour, minute) > from then today else today + 1;
    slot := landing * DAY + TimeOfDay(hour, minute);
    DivModUnique(from, DAY);
    SameTimeOfDay(slot, landing, hour, minute);
    if Representable(from) { WholeDays(from, landing, hour, minute); }
    hide ComputeNextRun;
    forall u | from < u < slot ensures !OnTheMinute(u, hour, minute) {
      NoneBefore(from, landing, hour, minute, u);
    }
  }

  lemma NoneBefore(from: Instant, landing: int, hour: u8, minute: u8, u: Instant)
    requires hour <= 23 && minute <= 59 && from < u < landing * DAY + TimeOfDay(hour, minute)
    requires landing == if from / DAY * DAY + TimeOfDay(hour, minute) > from then from / DAY else from / DAY + 1
    ensures !OnTheMinute(u, hour, minute)
  {
    DivModUnique(from, DAY);
    OnTheMinuteIsTimeOfDay(u, hour, minute);
    DivModUnique(u, DAY);
    hide OnTheMinute;
  }

  /** The branch of the weekly schedule that adds `7 - daysAhead` days is never taken:
      a candidate on a later weekday is always in the future. */
  lemma WeeklyShortPushUnreachable(day: u8, hour: u8, minute: u8, from: Instant)
    requires hour <= 23 && minute <= 59
    ensures var daysAhead := ClampDay(day) - Weekday(from);
            daysAhead > 0 ==> AtTimeOfDay(from + daysAhead * DAY, hour, minute).at > from
  {
  }

  /** Days from a day to the next with the wanted weekday, counting itself. */
  function DaysAhead(day: u8, today: int): int {
    var daysAhead := ClampDay(day) - (today + 3) % 7;
    if daysAhead < 0 then 7 + daysAhead else daysAhead
  }

  lemma DaysAheadLands(day: u8, today: int)
    ensures var ahead := DaysAhead(day, today);
            0 <= ahead <= 6 && (today + ahead + 3) % 7 == ClampDay(day) &&
            (ahead == 0 ==> (today + 7 + 3) % 7 == ClampDay(day))
  {
  }

  /** The weekly branch, by the day it looks at. */
  lemma WeeklyIs(day: u8, hour: u8, minute: u8, from: Instant)
    requires hour <= 23 && minute <= 59
    ensures var today := from / DAY;
            var ahead := DaysAhead(day, today);
            var slot := (today + ahead) * DAY + TimeOfDay(hour, minute);
            ComputeNextRun(Weekly(day, hour, minute), from) ==
            if !Representable(from + ahead * DAY) then Overflow
            else if slot > from then At(slot) else Checked(slot + 7 * DAY)
  {
    var today := from / DAY;
    var ahead := DaysAhead(day, today);
    DivModUnique(from, DAY);
    DivModIs(from + ahead * DAY, DAY, today + ahead, from % DAY);
  }

  /** The day the weekly schedule lands on: the first day from `today` on with the wanted
      weekday, or the one a week later when today's slot has passed. */
  lemma WeeklyLandsOn(day: u8, hour: u8, minute: u8, from: Instant) returns (landing: int)
    requires hour <= 23 && minute <= 59
    ensures from / DAY <= landing <= from / DAY + 7 && (landing + 3) % 7 == ClampDay(day)
    ensures landing == from / DAY + 7 ==> from >= Midnight(from) + TimeOfDay(hour, minute)
    ensures landing * DAY + TimeOfDay(hour, minute) > from
    ensures var (next, slot) := (ComputeNextRun(Weekly(day, hour, minute), from),
                     landing * DAY + TimeOfDay(hour, minute));
            next in {At(slot), Overflow} && (Representable(from) ==> next == Checked(slot))
  {
    hide ComputeNextRun, DaysAhead;
    var today := from / DAY;
    DivModUnique(from, DAY);
    WeeklyIs(day, hour, minute, from);
    DaysAheadLands(day, today);
    var ahead := DaysAhead(day, today);
    landing := if (today + ahead) * DAY + TimeOfDay(hour, minute) > from then today + ahead else today + 7;
    if Representable(from) {
      WholeDays(from, today + ahead, hour, minute);
      WholeDays(from, landing, hour, minute);
    }
  }

  lemma EarlierSlotIsAnotherDay(day: u8, hour: u8, minute: u8, from: Instant, landing: int, u: Instant)
    requires hour <= 23 && minute <= 59 && OnTheMinute(u, hour, minute)
    requires from / DAY <= landing <= from / DAY + 7 && (landing + 3) % 7 == ClampDay(day)
    requires landing == from / DAY + 7 ==> from >= Midnight(from) + TimeOfDay(hour, minute)
    requires from < u < landing * DAY + TimeOfDay(hour, minute)
    ensures Weekday(u) != ClampDay(day)
  {
    OnTheMinuteIsTimeOfDay(u, hour, minute);
    DivModUnique(u, DAY);
    DivModUnique(from, DAY);
  }

  lemma WeeklyIsFirst(day: u8, hour: u8, minute: u8, from: Instant) returns (slot: Instant)
    requires hour <= 23 && minute <= 59
    ensures from < slot <= from + 8 * DAY && FirstAfter(Weekly(day, hour, minute), from, slot)
    ensures Representable(from) ==> ComputeNextRun(Weekly(day, hour, minute), from) == Checked(slot)
    ensures ComputeNextRun(Weekly(day, hour, minute), from) in {At(slot), Overflow}
  {
    var landing := WeeklyLandsOn(day, hour, minute, from);
    slot := landing * DAY + TimeOfDay(hour, minute);
    hide ComputeNextRun;
    DivModUnique(from, DAY);
    SameTimeOfDay(slot, landing, hour, minute);
    forall u | from < u < slot && OnTheMinute(u, hour, minute) ensures Weekday(u) != ClampDay(day) {
      EarlierSlotIsAnotherDay(day, hour, minute, from, landing, u);
    }
  }

  /** A clock time that does not exist names no instant. */
  lemma NoSuchTime(schedule: Schedule, t: Instant)
    requires match schedule case Daily(h, m) => h > 23 || m > 59
             case Weekly(_, h, m) => h > 23 || m > 59 case _ => false
    ensures !Occurs(schedule, t)
  {
    OnTheMinuteIsTimeOfDay(t, schedule.hour, schedule.minute);
  }

  /** For calendar schedules the next run is the first instant after `from` that the schedule names; it
      is none only when the schedule names none; and it panics exactly when that first instant, or the
      day a weekly schedule looks at, is past the library's last. */
  lemma NextRunIsFirstOccurrence(schedule: Schedule, from: Instant)
    requires schedule.Once? || schedule.Daily? || schedule.Weekly?
    ensures var next := ComputeNextRun(schedule, from);
            (next.At? ==> FirstAfter(schedule, from, next.at)) &&
            (next == Exhausted ==> forall t :: t > from ==> !Occurs(schedule, t)) &&
            (Representable(from) ==> forall t :: FirstAfter(schedule, from, t) ==>
               next == if schedule.Once? then At(t) else Checked(t)) &&
            (Representable(from) && (forall t :: t > from ==> !Occurs(schedule, t)) ==>
               next == Exhausted || (next == Overflow && schedule.Weekly? && !Representable(from + 6 * DAY)))
  {
    match schedule {
      case Once(at) =>
        if at > from { assert Occurs(schedule, at); }
      case Daily(hour, minute) =>
        if hour <= 23 && minute <= 59 {
          var slot := DailyIsFirst(hour, minute, from);
          FirstIsUnique(schedule, from, slot);
        } else {
          forall t ensures !Occurs(schedule, t) { NoSuchTime(schedule, t); }
        }
      case Weekly(day, hour, minute) =>
        if hour <= 23 && minute <= 59 {
          var slot := WeeklyIsFirst(day, hour, minute, from);
          FirstIsUnique(schedule, from, slot);
        } else {
          forall t ensures !Occurs(schedule, t) { NoSuchTime(schedule, t); }
        }
    }
  }

  /** Unless it panics, the computation finds what the next run is to be; a cron schedule never runs. */
  lemma NextRunIsNext(schedule: Schedule, from: Instant)
    requires !ComputeNextRun(schedule, from).Overflow?
    ensures var next := ComputeNextRun(schedule, from);
            IsNext(schedule, from, if next.At? then Some(next.at) else None) && (schedule.Cron? ==> next == Exhausted)
  {
    if !schedule.Interval? && !schedule.Cron? {
      NextRunIsFirstOccurrence(schedule, from);
    }
  }

  lemma FirstIsUnique(schedule: Schedule, from: Instant, slot: Instant)
    requires FirstAfter(schedule, from, slot)
    ensures Occurs(schedule, slot) && forall t :: FirstAfter(schedule, from, t) ==> t == slot
  {
    hide Occurs;
  }

  // ---------------------------------------------------------------------
  // When a repeating schedule moves forward
  // ---------------------------------------------------------------------

  /** An interval the signed cast leaves positive.  Every other schedule qualifies. */
  predicate Advances(schedule: Schedule) {
    schedule.Interval? ==> 1 <= schedule.everySecs as int < TWO_63
  }

  /** A next run is strictly later than the instant it was computed from exactly when
      the schedule advances: an interval of 0 stays put, and one of 2^63 seconds or
      more goes backwards through the signed cast. */
  lemma NextRunIsLater(schedule: Schedule, from: Instant)
    requires ComputeNextRun(schedule, from).At?
    ensures ComputeNextRun(schedule, from).at > from <==> Advances(schedule)
  {
    if schedule.Daily? || schedule.Weekly? || schedule.Once? {
      NextRunIsFirstOccurrence(schedule, from);
      assert FirstAfter(schedule, from, ComputeNextRun(schedule, from).at);
    }
  }

  /** An interval panics exactly when the sum leaves the library's range; the duration type, which is
      wider, never decides. */
  lemma IntervalOverflowsExactly(everySecs: u64, from: Instant)
    requires Representable(from)
    ensures ComputeNextRun(Interval(everySecs), from) == Checked(from + AsI64(everySecs) * SECOND)
  {
  }

  /** A daily or weekly schedule panics exactly when its next slot is past the library's last instant,
      which takes a clock in the library's last eight days. */
  lemma CalendarOverflowsExactly(schedule: Schedule, from: Instant)
    requires Representable(from)
    requires match schedule case Daily(h, m) => h <= 23 && m <= 59
             case Weekly(_, h, m) => h <= 23 && m <= 59 case _ => false
    ensures ComputeNextRun(schedule, from).Overflow? <==>
            forall t :: t > from && Occurs(schedule, t) ==> t > LAST_INSTANT
    ensures ComputeNextRun(schedule, from).Overflow? ==> from > LAST_INSTANT - 8 * DAY
  {
    var slot: Instant;
    if schedule.Daily? {
      slot := DailyIsFirst(schedule.hour, schedule.minute, from);
    } else {
      slot := WeeklyIsFirst(schedule.day, schedule.hour, schedule.minute, from);
    }
    hide ComputeNextRun, Occurs;
  }

  // ---------------------------------------------------------------------
  // When every next run is in order and has a four-digit year
  // ---------------------------------------------------------------------

  /** The clocks of the years 0 to 9999 up to a horizon. */
  predicate Within(clock: Instant, horizon: Instant) { YEAR_0 <= clock <= horizon }

  /** From every clock up to the horizon the next run, if the job can be added at all, is later than
      the clock and before the year 10000. */
  ghost predicate Timely(schedule: Schedule, horizon: Instant) {
    forall clock :: Within(clock, horizon) && ComputeNextRun(schedule, clock).At? ==>
      clock < ComputeNextRun(schedule, clock).at < YEAR_10000
  }

  /** A one-shot instant is one the library can hold. */
  predicate WellTyped(schedule: Schedule) { schedule.Once? ==> Representable(schedule.at) }

  /** What to check of a schedule.  An interval that leaves the library's range from every clock can
      never be added. */
  predicate TimelyCheck(schedule: Schedule, horizon: Instant) {
    match schedule
    case Once(at) => at < YEAR_10000
    case Interval(everySecs) =>
      var step := AsI64(everySecs) * SECOND;
      (0 < step && horizon + step < YEAR_10000) || YEAR_0 + step > LAST_INSTANT || horizon + step < FIRST_INSTANT
    case _ =>
      var last := ComputeNextRun(schedule, horizon);
      last.At? ==> last.at < YEAR_10000
  }

  lemma IntervalTimely(everySecs: u64, horizon: Instant)
    requires YEAR_0 <= horizon < YEAR_10000
    ensures Timely(Interval(everySecs), horizon) <==> TimelyCheck(Interval(everySecs), horizon)
  {
    var step := AsI64(everySecs) * SECOND;
    forall clock | Within(clock, horizon)
      ensures ComputeNextRun(Interval(everySecs), clock) == Checked(clock + step)
    {
      IntervalOverflowsExactly(everySecs, clock);
    }
    hide ComputeNextRun;
    if !TimelyCheck(Interval(everySecs), horizon) {
      var clock := if step <= 0 then horizon else if YEAR_0 + step >= YEAR_10000 then YEAR_0 else YEAR_10000 - step;
      assert Within(clock, horizon) && ComputeNextRun(Interval(everySecs), clock) == At(clock + step);
    }
  }

  /** The next run of a calendar schedule does not fall behind as the clock advances. */
  lemma CalendarTimely(schedule: Schedule, horizon: Instant)
    requires YEAR_0 <= horizon < YEAR_10000 && !schedule.Interval? && !schedule.Cron? && WellTyped(schedule)
    ensures Timely(schedule, horizon) <==> TimelyCheck(schedule, horizon)
  {
    NextRunIsFirstOccurrence(schedule, horizon);
    forall clock | Within(clock, horizon) && ComputeNextRun(schedule, clock).At?
      ensures var next := ComputeNextRun(schedule, clock).at;
              clock < next && Occurs(schedule, next) && forall t :: clock < t < next ==> !Occurs(schedule, t)
    {
      NextRunIsFirstOccurrence(schedule, clock);
    }
    LaterClockHasNext(schedule, horizon);
  }

  /** Clocks before the year 10000 are far from the end of the library's range, so a calendar schedule
      that has a next run keeps having one. */
  lemma LaterClockHasNext(schedule: Schedule, horizon: Instant)
    requires YEAR_0 <= horizon < YEAR_10000 && (schedule.Daily? || schedule.Weekly? || schedule.Once?)
    ensures !ComputeNextRun(schedule, horizon).Overflow?
    ensures !schedule.Once? ==> forall clock :: Within(clock, horizon) && ComputeNextRun(schedule, clock).At? ==>
              ComputeNextRun(schedule, horizon).At?
  {
  }

  /** The next run is later than the clock and before the year 10000, from every clock up to the horizon,
      exactly when the check says so. */
  lemma TimelyExactly(schedule: Schedule, horizon: Instant)
    requires YEAR_0 <= horizon < YEAR_10000 && WellTyped(schedule)
    ensures Timely(schedule, horizon) <==> TimelyCheck(schedule, horizon)
  {
    if schedule.Interval? {
      IntervalTimely(schedule.everySecs, horizon);
    } else if !schedule.Cron? {
      CalendarTimely(schedule, horizon);
    }
  }
}
