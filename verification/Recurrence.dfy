/** The recurrence strings a reminder accepts: `daily|HH:MM` and `interval|N`. */
module Recurrence {
  import opened Prelude
  import opened Schedule
  import Text

  datatype ParseError =
    | InvalidHour
    | InvalidMinute
    | OutOfRange(hour: u8, minute: u8)
    | InvalidInterval
    | ZeroInterval
    | UnknownKind(kind: string)

  /** The two pieces of a split at the first `sep`; the second is empty when there is none. */
  function SplitOnce(s: string, sep: char): (string, string) {
    match Text.Find(s, [sep])
    case Some(p) => (s[..p], s[p + 1..])
    case None => (s, "")
  }

  predicate IsDigit(c: char) { '0' <= c <= '9' }

  function DigitValue(c: char): nat
    requires IsDigit(c)
  {
    c as int - '0' as int
  }

  /** The value of a run of decimal digits. */
  function DigitsValue(s: string): nat
    requires forall c :: c in s ==> IsDigit(c)
  {
    if s == "" then 0 else DigitsValue(s[..|s| - 1]) * 10 + DigitValue(s[|s| - 1])
  }

  /** Unsigned integer parsing: an optional plus sign, then at least one digit, at most `max`. */
  function ParseUnsigned(s: string, max: nat): Option<nat> {
    var digits := if s != "" && s[0] == '+' then s[1..] else s;
    if digits == "" || exists c :: c in digits && !IsDigit(c) then None
    else if DigitsValue(digits) > max then None
    else Some(DigitsValue(digits))
  }

  function ParseRecurring(s: string): Result<Schedule, ParseError> {
    var (kind, rest) := SplitOnce(s, '|');
    if kind == "daily" then
      var (h, m) := SplitOnce(rest, ':');
      (match ParseUnsigned(h, 255)
       case None => Err(InvalidHour)
       case Some(hour) =>
         match ParseUnsigned(m, 255)
         case None => Err(InvalidMinute)
         case Some(minute) =>
           if hour > 23 || minute > 59 then Err(OutOfRange(hour as u8, minute as u8))
           else Ok(Daily(hour as u8, minute as u8)))
    else if kind == "interval" then
      (match ParseUnsigned(rest, TWO_64 - 1)
       case None => Err(InvalidInterval)
       case Some(secs) => if secs == 0 then Err(ZeroInterval) else Ok(Interval(secs as u64)))
    else Err(UnknownKind(kind))
  }

  /** A recurrence the parser accepts has a next run strictly in the future exactly when it is an
      interval that the signed cast leaves positive and whose end the date library can hold, or a daily
      time of which a later one is left before the library's last instant. */
  lemma AcceptedRecurrenceIsInTheFuture(s: string, from: Instant)
    requires ParseRecurring(s).Ok? && Representable(from)
    ensures var (schedule, next) := (ParseRecurring(s).value, ComputeNextRun(ParseRecurring(s).value, from));
            (next.At? && next.at > from) <==>
            match schedule
            case Interval(everySecs) => everySecs as int < TWO_63 && from + everySecs as int * SECOND <= LAST_INSTANT
            case Daily(hour, minute) => Midnight(from) + TimeOfDay(hour, minute) > from || from + DAY <= LAST_INSTANT
            case _ => false
  {
    hide FirstAfter;
    var schedule := AcceptedKinds(s);
    if schedule.Daily? {
      var slot := DailyIsFirst(schedule.hour, schedule.minute, from);
      DivModUnique(from, DAY);
    } else {
      IntervalOverflowsExactly(schedule.everySecs, from);
    }
  }

  lemma AcceptedKinds(s: string) returns (schedule: Schedule)
    requires ParseRecurring(s).Ok?
    ensures schedule == ParseRecurring(s).value
    ensures (schedule.Daily? && schedule.hour <= 23 && schedule.minute <= 59) ||
            (schedule.Interval? && schedule.everySecs > 0)
  {
    hide ParseUnsigned, SplitOnce;
    schedule := ParseRecurring(s).value;
  }

  // ---------------------------------------------------------------------
  // Writing a recurrence and reading it back
  // ---------------------------------------------------------------------

  function Decimal(n: nat): (s: string)
    ensures s != "" && forall c :: c in s ==> IsDigit(c)
  {
    var last := [('0' as int + n % 10) as char];
    if n < 10 then last else Decimal(n / 10) + last
  }

  lemma {:induction false} DecimalValue(n: nat)
    ensures DigitsValue(Decimal(n)) == n
  {
    var s := Decimal(n);
    if n < 10 {
      assert s[..0] == "";
    } else {
      assert s[..|s| - 1] == Decimal(n / 10);
      DecimalValue(n / 10);
    }
  }

  lemma ParseDecimal(n: nat, max: nat)
    ensures ParseUnsigned(Decimal(n), max) == if n <= max then Some(n) else None
  {
    DecimalValue(n);
    assert IsDigit(Decimal(n)[0]);
  }

  lemma SplitOnceAt(a: string, sep: char, b: string)
    requires sep !in a
    ensures SplitOnce(a + [sep] + b, sep) == (a, b)
  {
    var s := a + [sep] + b;
    assert Text.OccursAt(s, [sep], |a|);
    forall q | 0 <= q < |a| ensures !Text.OccursAt(s, [sep], q) {
      assert s[q..q + 1][0] == a[q];
    }
    Text.FindIs(s, [sep], |a|);
    assert s[..|a|] == a && s[|a| + 1..] == b;
  }

  function FormatDaily(hour: nat, minute: nat): string {
    "daily" + ['|'] + (Decimal(hour) + [':'] + Decimal(minute))
  }

  function FormatInterval(secs: nat): string { "interval" + ['|'] + Decimal(secs) }

  lemma DailyRoundTrip(hour: nat, minute: nat)
    ensures ParseRecurring(FormatDaily(hour, minute)) ==
            if hour > 255 then Err(InvalidHour)
            else if minute > 255 then Err(InvalidMinute)
            else if hour > 23 || minute > 59 then Err(OutOfRange(hour as u8, minute as u8))
            else Ok(Daily(hour as u8, minute as u8))
  {
    hide Decimal, ParseUnsigned, SplitOnce;
    SplitOnceAt("daily", '|', Decimal(hour) + [':'] + Decimal(minute));
    SplitOnceAt(Decimal(hour), ':', Decimal(minute));
    ParseDecimal(hour, 255);
    ParseDecimal(minute, 255);
  }

  lemma IntervalRoundTrip(secs: nat)
    ensures ParseRecurring(FormatInterval(secs)) ==
            if secs >= TWO_64 then Err(InvalidInterval)
            else if secs == 0 then Err(ZeroInterval)
            else Ok(Interval(secs as u64))
  {
    hide Decimal, ParseUnsigned, SplitOnce;
    SplitOnceAt("interval", '|', Decimal(secs));
    ParseDecimal(secs, TWO_64 - 1);
  }

  /** A written recurrence reads back as itself exactly when its numbers are in range;
      every other one is refused with the error that names the number. */
  lemma RecurrenceRoundTrip(hour: nat, minute: nat, secs: nat)
    ensures ParseRecurring(FormatDaily(hour, minute)) ==
            if hour > 255 then Err(InvalidHour)
            else if minute > 255 then Err(InvalidMinute)
            else if hour > 23 || minute > 59 then Err(OutOfRange(hour as u8, minute as u8))
            else Ok(Daily(hour as u8, minute as u8))
    ensures ParseRecurring(FormatInterval(secs)) ==
            if secs >= TWO_64 then Err(InvalidInterval)
            else if secs == 0 then Err(ZeroInterval)
            else Ok(Interval(secs as u64))
  {
    hide *;
    DailyRoundTrip(hour, minute);
    IntervalRoundTrip(secs);
  }

  /** The largest interval is accepted, and its next run is one second in the past. */
  lemma LargestIntervalRunsInThePast(from: Instant)
    requires Representable(from)
    ensures var parsed := ParseRecurring(FormatInterval(TWO_64 - 1));
            parsed.Ok? && ComputeNextRun(parsed.value, from) == Checked(from - SECOND)
  {
    IntervalRoundTrip(TWO_64 - 1);
    IntervalOverflowsExactly((TWO_64 - 1) as u64, from);
  }

  /** An interval of ten trillion seconds is accepted and fits the duration type, yet from any clock
      since 1970 the addition panics. */
  lemma LongIntervalPanics(from: Instant)
    requires 0 <= from <= LAST_INSTANT
    ensures var parsed := ParseRecurring(FormatInterval(10_000_000_000_000));
            parsed.Ok? && parsed.value.Interval? && AsI64(parsed.value.everySecs) <= MAX_DURATION_SECS &&
            ComputeNextRun(parsed.value, from) == Overflow
  {
    IntervalRoundTrip(10_000_000_000_000);
    IntervalOverflowsExactly(10_000_000_000_000, from);
  }
}
