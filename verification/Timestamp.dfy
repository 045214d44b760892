/** The text form of stored instants and the order the database compares it in.

    Instants are stored as RFC 3339 text (section 5.6 of RFC 3339) with a `+00:00`
    offset and a fraction of 0, 3, 6 or 9 digits, whichever is the shortest exact
    one, and the job queries compare that text byte by byte.  Beyond the years 0 to 9999,
    which RFC 3339 does not provide for, the library writes the year with a sign. */
module Timestamp {
  import opened Prelude
  import opened Schedule

  // --- the calendar ----------------------------------------------------

  predicate IsLeap(year: nat) { year % 4 == 0 && (year % 100 != 0 || year % 400 == 0) }

  function YearLength(year: nat): nat { if IsLeap(year) then 366 else 365 }

  function MonthLength(year: nat, month: nat): nat
    requires 1 <= month <= 12
  {
    if month == 2 then (if IsLeap(year) then 29 else 28)
    else if month in {4, 6, 9, 11} then 30
    else 31
  }

  /** Days from 0000-01-01 to the first day of `year`. */
  function DaysBeforeYear(year: nat): nat {
    if year == 0 then 0 else DaysBeforeYear(year - 1) + YearLength(year - 1)
  }

  /** Days from the first day of the year to the first day of `month`. */
  function DaysBeforeMonth(year: nat, month: nat): nat
    requires 1 <= month <= 13
  {
    if month == 1 then 0 else DaysBeforeMonth(year, month - 1) + MonthLength(year, month - 1)
  }

  lemma {:induction false} YearsAreOrdered(y: nat, y': nat)
    requires y < y'
    ensures DaysBeforeYear(y) + YearLength(y) <= DaysBeforeYear(y')
  {
    if y + 1 < y' { YearsAreOrdered(y, y' - 1); }
  }

  lemma {:induction false} MonthsAreOrdered(year: nat, m: nat, m': nat)
    requires 1 <= m < m' <= 13
    ensures DaysBeforeMonth(year, m) + MonthLength(year, m) <= DaysBeforeMonth(year, m')
  {
    if m + 1 < m' { MonthsAreOrdered(year, m, m' - 1); }
  }

  lemma YearIsTwelveMonths(year: nat)
    ensures DaysBeforeMonth(year, 13) == YearLength(year)
  {
    assert DaysBeforeMonth(year, 2) == 31;
    assert DaysBeforeMonth(year, 3) == 31 + MonthLength(year, 2);
    assert DaysBeforeMonth(year, 5) == DaysBeforeMonth(year, 3) + 61;
    assert DaysBeforeMonth(year, 7) == DaysBeforeMonth(year, 5) + 61;
    assert DaysBeforeMonth(year, 9) == DaysBeforeMonth(year, 7) + 62;
    assert DaysBeforeMonth(year, 11) == DaysBeforeMonth(year, 9) + 61;
  }

  /** The year holding the day numbered `day` from 0000-01-01, found upwards from `year`. */
  function YearOf(day: nat, year: nat): (y: nat)
    requires DaysBeforeYear(year) <= day
    ensures DaysBeforeYear(y) <= day < DaysBeforeYear(y) + YearLength(y)
    decreases day - DaysBeforeYear(year)
  {
    if day < DaysBeforeYear(year) + YearLength(year) then year else YearOf(day, year + 1)
  }

  /** The month holding the day numbered `day` from the first day of the year. */
  function MonthOf(year: nat, day: nat, month: nat): (m: nat)
    requires 1 <= month <= 12 && DaysBeforeMonth(year, month) <= day < DaysBeforeMonth(year, 13)
    ensures 1 <= m <= 12 && DaysBeforeMonth(year, m) <= day < DaysBeforeMonth(year, m) + MonthLength(year, m)
    decreases 12 - month
  {
    if day < DaysBeforeMonth(year, month) + MonthLength(year, month) then month else MonthOf(year, day, month + 1)
  }

  datatype Date = Date(year: nat, month: nat, day: nat)

  function DateOf(day: nat): (d: Date)
    ensures 1 <= d.month <= 12 && 1 <= d.day <= MonthLength(d.year, d.month)
    ensures day == DaysBeforeYear(d.year) + DaysBeforeMonth(d.year, d.month) + d.day - 1
    ensures DaysBeforeYear(d.year) <= day < DaysBeforeYear(d.year) + YearLength(d.year)
  {
    var year := YearOf(day, 0);
    var dayOfYear := day - DaysBeforeYear(year);
    YearIsTwelveMonths(year);
    var month := MonthOf(year, dayOfYear, 1);
    Date(year, month, dayOfYear - DaysBeforeMonth(year, month) + 1)
  }

  lemma {:induction false} DaysInClosedForm(year: nat)
    ensures DaysBeforeYear(year) == 365 * year + (year + 3) / 4 - (year + 99) / 100 + (year + 399) / 400
  {
    if year > 0 {
      DaysInClosedForm(year - 1);
      LeapStep(year - 1);
    }
  }

  lemma LeapStep(year: nat)
    ensures (if IsLeap(year) then 1 else 0) ==
            (year + 4) / 4 - (year + 3) / 4 - ((year + 100) / 100 - (year + 99) / 100) +
            (year + 400) / 400 - (year + 399) / 400
  {
    By4(year);
    By100(year);
    By400(year);
    assert year % 400 == 0 ==> year % 100 == 0 by { Divides(year); }
    assert year % 100 == 0 ==> year % 4 == 0 by { Divides(year); }
  }

  lemma By4(year: nat)
    ensures (year + 4) / 4 - (year + 3) / 4 == if year % 4 == 0 then 1 else 0
  {
  }

  lemma By100(year: nat)
    ensures (year + 100) / 100 - (year + 99) / 100 == if year % 100 == 0 then 1 else 0
  {
  }

  lemma By400(year: nat)
    ensures (year + 400) / 400 - (year + 399) / 400 == if year % 400 == 0 then 1 else 0
  {
  }

  lemma Divides(year: nat)
    ensures year % 400 == 0 ==> year % 100 == 0
    ensures year % 100 == 0 ==> year % 4 == 0
  {
    Fourths(year / 400);
    TwentyFifths(year / 100);
  }

  lemma Fourths(k: nat)
    ensures 400 * k % 100 == 0
  {
  }

  lemma TwentyFifths(k: nat)
    ensures 100 * k % 4 == 0
  {
  }

  /** The calendar repeats every 400 years. */
  lemma CycleRepeats(year: nat, cycles: nat)
    ensures IsLeap(year + 400 * cycles) == IsLeap(year)
    ensures DaysBeforeYear(year + 400 * cycles) == DaysBeforeYear(year) + CYCLE * cycles
  {
    hide DaysBeforeYear;
    DaysInClosedForm(year);
    DaysInClosedForm(year + 400 * cycles);
    Multiples(year + 3, 4, 100 * cycles);
    Multiples(year + 99, 100, 4 * cycles);
    Multiples(year + 399, 400, cycles);
    Multiples(year, 4, 100 * cycles);
    Multiples(year, 100, 4 * cycles);
    Multiples(year, 400, cycles);
  }

  lemma Multiples(n: nat, d: nat, k: nat)
    requires d == 4 || d == 100 || d == 400
    ensures (n + d * k) / d == n / d + k && (n + d * k) % d == n % d
  {
  }

  /** Days in 400 years. */
  const CYCLE: nat := 146_097

  /** A date in the calendar extended to every year: the year 0 precedes the year 1, and the year -1 it. */
  datatype CivilDate = CivilDate(year: int, month: nat, day: nat)

  /** The date of any day, counted from 0000-01-01, by its place in a 400-year cycle. */
  function CivilDateOf(day: int): CivilDate {
    var d := DateOf(day % CYCLE);
    CivilDate(d.year + 400 * (day / CYCLE), d.month, d.day)
  }

  lemma {:induction false} SameMonths(y: nat, y': nat, m: nat)
    requires 1 <= m <= 13 && IsLeap(y) == IsLeap(y')
    ensures DaysBeforeMonth(y, m) == DaysBeforeMonth(y', m)
  {
    if m > 1 { SameMonths(y, y', m - 1); }
  }

  /** A day has one date. */
  lemma DateIs(day: nat, d: Date)
    requires 1 <= d.month <= 12 && 1 <= d.day <= MonthLength(d.year, d.month)
    requires day == DaysBeforeYear(d.year) + DaysBeforeMonth(d.year, d.month) + d.day - 1
    requires day < DaysBeforeYear(d.year) + YearLength(d.year)
    ensures DateOf(day) == d
  {
    hide DaysBeforeYear, DateOf, DaysBeforeMonth, YearLength, MonthLength;
    var e := DateOf(day);
    if d.year < e.year { YearsAreOrdered(d.year, e.year); }
    if e.year < d.year { YearsAreOrdered(e.year, d.year); }
    if d.month < e.month { MonthsAreOrdered(d.year, d.month, e.month); }
    if e.month < d.month { MonthsAreOrdered(d.year, e.month, d.month); }
  }

  /** Counting by cycles agrees with counting year by year. */
  lemma CivilDateIsDate(day: nat)
    ensures CivilDateOf(day) == CivilDate(DateOf(day).year, DateOf(day).month, DateOf(day).day)
  {
    hide DateOf;
    var (cycles, d) := (day / CYCLE, DateOf(day % CYCLE));
    SameDate(day % CYCLE, cycles, d);
    assert day == day % CYCLE + CYCLE * cycles;
  }

  /** The same date, whole cycles later. */
  lemma SameDate(day: nat, cycles: nat, d: Date)
    requires DateOf(day) == d
    ensures DateOf(day + CYCLE * cycles) == Date(d.year + 400 * cycles, d.month, d.day)
  {
    hide DateOf, DaysBeforeYear, DaysBeforeMonth, IsLeap;
    var e := Date(d.year + 400 * cycles, d.month, d.day);
    CycleRepeats(d.year, cycles);
    SameMonths(d.year, e.year, d.month);
    DateIs(day + CYCLE * cycles, e);
  }

  predicate DateBefore(a: Date, b: Date) {
    a.year < b.year || (a.year == b.year && (a.month < b.month || (a.month == b.month && a.day < b.day)))
  }

  lemma EarlierDayEarlierDate(a: nat, b: nat)
    requires a < b
    ensures DateBefore(DateOf(a), DateOf(b))
  {
    var (d, e) := (DateOf(a), DateOf(b));
    if d.year > e.year { YearsAreOrdered(e.year, d.year); }
    if d.year == e.year && d.month > e.month { MonthsAreOrdered(d.year, e.month, d.month); }
  }

  // --- fixed-width numbers and byte order --------------------------------

  /** Byte-wise order of text: the first difference decides, and a proper prefix is smaller. */
  predicate Less(a: string, b: string) {
    b != "" && (a == "" || a[0] < b[0] || (a[0] == b[0] && Less(a[1..], b[1..])))
  }

  function Pow10(n: nat): (p: nat)
    ensures p >= 1
  {
    if n == 0 then 1 else 10 * Pow10(n - 1)
  }

  function Digit(d: nat): char
    requires d < 10
  {
    ('0' as int + d) as char
  }

  /** `n` in exactly `width` decimal digits. */
  function Pad(n: nat, width: nat): (s: string)
    ensures |s| == width
    ensures forall i :: 0 <= i < |s| ==> '0' <= s[i] <= '9'
  {
    if width == 0 then "" else Pad(n / 10, width - 1) + [Digit(n % 10)]
  }

  /** Parts of equal length are compared first; what follows decides only between equal parts. */
  lemma {:induction false} LessConcat(a: string, b: string, x: string, y: string)
    requires |a| == |b|
    ensures Less(a + x, b + y) <==> Less(a, b) || (a == b && Less(x, y))
  {
    if a == "" {
      assert a + x == x && b + y == y;
    } else {
      assert (a + x)[1..] == a[1..] + x && (b + y)[1..] == b[1..] + y;
      LessConcat(a[1..], b[1..], x, y);
      if a[0] == b[0] && a[1..] == b[1..] { assert a == [a[0]] + a[1..] && b == [b[0]] + b[1..]; }
    }
  }

  /** A text is not smaller than itself, so the order between equal texts is decided by the rest. */
  lemma {:induction false} LessIrreflexive(a: string)
    ensures !Less(a, a)
  {
    if a != "" { LessIrreflexive(a[1..]); }
  }

  lemma LastDigit(a: nat, b: nat)
    ensures a < b <==> a / 10 < b / 10 || (a / 10 == b / 10 && a % 10 < b % 10)
    ensures a == b <==> a / 10 == b / 10 && a % 10 == b % 10
  {
  }

  lemma LastDiffers(s: string, x: char, t: string, y: char)
    ensures s + [x] == t + [y] <==> s == t && x == y
    ensures |s| == |t| ==> (Less(s + [x], t + [y]) <==> Less(s, t) || (s == t && x < y))
  {
    if s + [x] == t + [y] {
      assert (s + [x])[..|s|] == s && (t + [y])[..|t|] == t;
    }
    if |s| == |t| { LessConcat(s, t, [x], [y]); }
  }

  lemma {:induction false} PadOrder(a: nat, b: nat, width: nat)
    requires a < Pow10(width) && b < Pow10(width)
    ensures Less(Pad(a, width), Pad(b, width)) <==> a < b
    ensures Pad(a, width) == Pad(b, width) <==> a == b
  {
    if width > 0 {
      PadOrder(a / 10, b / 10, width - 1);
      LastDigit(a, b);
      hide Less;
      LastDiffers(Pad(a / 10, width - 1), Digit(a % 10), Pad(b / 10, width - 1), Digit(b % 10));
    }
  }

  lemma PadStep(n: nat, width: nat)
    ensures Pad(n, width + 1) == Pad(n / 10, width) + [Digit(n % 10)]
  {}

  /** Dropping the last digit of the lower part. */
  lemma Shifted(high: nat, low: nat, v: nat)
    requires low < Pow10(v + 1)
    ensures low / 10 < Pow10(v)
    ensures (Shift(high, v + 1) + low) / 10 == Shift(high, v) + low / 10
    ensures (Shift(high, v + 1) + low) % 10 == low % 10
  {
    var k := high * Pow10(v);
    assert high * Pow10(v + 1) == 10 * k by { assert Pow10(v + 1) == 10 * Pow10(v); }
    TenfoldDivision(k, low);
  }

  lemma TenfoldDivision(k: nat, low: nat)
    ensures (10 * k + low) / 10 == k + low / 10 && (10 * k + low) % 10 == low % 10
  {}

  function Shift(high: nat, v: nat): nat { high * Pow10(v) }

  lemma NoLowDigits(high: nat, low: nat)
    requires low < Pow10(0)
    ensures Shift(high, 0) + low == high && Pad(low, 0) == ""
  {}

  lemma {:induction false} PadConcat(high: nat, low: nat, w: nat, v: nat)
    requires low < Pow10(v)
    ensures Pad(Shift(high, v) + low, w + v) == Pad(high, w) + Pad(low, v)
  {
    hide Pad, Shift, Pow10;
    if v == 0 {
      NoLowDigits(high, low);
      NothingAdded(Pad(high, w));
    } else {
      var n := Shift(high, v) + low;
      Shifted(high, low, v - 1);
      PadConcat(high, low / 10, w, v - 1);
      PadStep(n, w + (v - 1));
      PadStep(low, v - 1);
      assert w + v == w + (v - 1) + 1;
      Associative(Pad(high, w), Pad(low / 10, v - 1), [Digit(low % 10)]);
    }
  }

  // --- the text of an instant ---------------------------------------------

  const OFFSET: string := "+00:00"

  function Fraction(nanos: nat): string
    requires nanos < SECOND
  {
    if nanos == 0 then ""
    else if nanos % 1_000_000 == 0 then "." + Pad(nanos / 1_000_000, 3)
    else if nanos % 1_000 == 0 then "." + Pad(nanos / 1_000, 6)
    else "." + Pad(nanos, 9)
  }

  function DayNumber(t: Instant): int { t / DAY + DaysBeforeYear(1970) }

  /** The instants of the years 0 to 9999, whose year has four digits. */
  predicate FourDigitYear(t: Instant) { 0 <= DayNumber(t) < DaysBeforeYear(10_000) }

  function DateText(d: Date): (s: string)
    ensures |s| == 10 && '0' <= s[0] <= '9'
  {
    Pad(d.year, 4) + ("-" + (Pad(d.month, 2) + ("-" + Pad(d.day, 2))))
  }

  function SecondOf(t: Instant): int { t % DAY % HOUR % MINUTE / SECOND }

  function NanosOf(t: Instant): int { t % DAY % HOUR % MINUTE % SECOND }

  function TimeText(t: Instant): string {
    Pad(HourOf(t), 2) + (":" + (Pad(MinuteOf(t), 2) + (":" + (Pad(SecondOf(t), 2) + (Fraction(NanosOf(t)) + OFFSET)))))
  }

  /** Digits of a number, at least four. */
  function YearWidth(n: nat): (w: nat)
    ensures w >= 4
  {
    if n < 10_000 then 4 else YearWidth(n / 10) + 1
  }

  /** Four digits, or a sign and at least four. */
  function YearText(year: int): string {
    if 0 <= year < 10_000 then Pad(year, 4)
    else if year < 0 then "-" + Pad(-year, YearWidth(-year))
    else "+" + Pad(year, YearWidth(year))
  }

  function ToRfc3339(t: Instant): string {
    var d := CivilDateOf(DayNumber(t));
    YearText(d.year) + ("-" + (Pad(d.month, 2) + ("-" + Pad(d.day, 2)))) + ("T" + TimeText(t))
  }

  /** The four-digit years in nanoseconds. */
  lemma FourDigitYears(t: Instant)
    ensures FourDigitYear(t) <==> YEAR_0 <= t < YEAR_10000
    ensures DaysBeforeYear(1970) == 719_528 && DaysBeforeYear(10_000) == 3_652_425
  {
    hide DaysBeforeYear;
    DaysInClosedForm(1970);
    DaysInClosedForm(10_000);
    DivModUnique(t, DAY);
  }

  /** The library's range is the years -262143 to 262142, to the day. */
  lemma RangeIsWholeYears()
    ensures CivilDateOf(DayNumber(FIRST_INSTANT)) == CivilDate(-262_143, 1, 1)
    ensures CivilDateOf(DayNumber(LAST_INSTANT)) == CivilDate(262_142, 12, 31)
    ensures FIRST_INSTANT % DAY == 0 && LAST_INSTANT % DAY == DAY - 1
  {
    hide DaysBeforeYear, DateOf;
    FourDigitYears(0);
    assert DayNumber(FIRST_INSTANT) == -95_745_764 && DayNumber(LAST_INSTANT) == 95_745_764;
    DaysInClosedForm(257);
    DateIs(93_868, Date(257, 1, 1));
    DaysInClosedForm(142);
    YearIsTwelveMonths(142);
    DateIs(52_229, Date(142, 12, 31));
  }

  lemma FourDigitText(t: Instant)
    requires FourDigitYear(t)
    ensures ToRfc3339(t) == DateText(DateOf(DayNumber(t))) + ("T" + TimeText(t))
  {
    hide DateOf, DaysBeforeYear, CivilDateOf, Pad, TimeText;
    CivilDateIsDate(DayNumber(t));
    FieldsFit(DayNumber(t));
  }

  /** A year beyond four digits starts its text with its sign. */
  lemma SignedText(t: Instant)
    requires !FourDigitYear(t)
    ensures |ToRfc3339(t)| > 0 && ToRfc3339(t)[0] == if t < 0 then '-' else '+'
  {
    hide DaysBeforeYear, DateOf, TimeText, Pad, YearLength, MonthLength, DaysBeforeMonth, YearWidth;
    FourDigitYears(t);
    var day := DayNumber(t);
    var d := DateOf(day % CYCLE);
    YearInCycle(day % CYCLE);
    DivModUnique(t, DAY);
    assert t < 0 ==> day < 0 && d.year + 400 * (day / CYCLE) < 0;
    assert t >= 0 ==> day >= 3_652_425 && day / CYCLE >= 25;
  }

  lemma YearInCycle(day: nat)
    requires day < CYCLE
    ensures DateOf(day).year < 400
  {
    hide DaysBeforeYear, DateOf, YearLength, MonthLength, DaysBeforeMonth;
    DaysInClosedForm(400);
    if DateOf(day).year > 400 { YearsAreOrdered(400, DateOf(day).year); }
  }

  // --- byte order of the text is order in time ------------------------------

  /** Comparing a shorter fraction (followed by the offset) with a longer one: the plus sign
      sorts below every digit. */
  lemma ShorterFraction(x: nat, y: nat, width: nat, tail: string)
    requires x < Pow10(width) && y < Pow10(width)
    requires tail != "" && '0' <= tail[0] <= '9'
    ensures Less(Pad(x, width) + OFFSET, Pad(y, width) + tail) <==> x <= y
    ensures Less(Pad(y, width) + tail, Pad(x, width) + OFFSET) <==> y < x
  {
    LessConcat(Pad(x, width), Pad(y, width), OFFSET, tail);
    LessConcat(Pad(y, width), Pad(x, width), tail, OFFSET);
    PadOrder(x, y, width);
    PadOrder(y, x, width);
  }

  lemma Powers()
    ensures Pow10(2) == 100 && Pow10(3) == 1_000 && Pow10(4) == 10_000
    ensures Pow10(6) == 1_000_000 && Pow10(9) == 1_000_000_000
  {
    assert Pow10(6) == 1000 * Pow10(3);
    assert Pow10(9) == 1000 * Pow10(6);
  }

  /** How many fraction digits are written. */
  function Width(nanos: nat): nat {
    if nanos == 0 then 0 else if nanos % 1_000_000 == 0 then 3 else if nanos % 1_000 == 0 then 6 else 9
  }

  function Unit(w: nat): nat { if w == 3 then 1_000_000 else 1_000 }

  lemma PadCut3(n: nat, w: nat)
    ensures Pad(n, w + 3) == Pad(n / 1_000, w) + Pad(n % 1_000, 3)
  {
    Powers();
    hide Pad, Pow10;
    PadConcat(n / 1_000, n % 1_000, w, 3);
    assert Shift(n / 1_000, 3) + n % 1_000 == n;
  }

  lemma PadCut6(n: nat, w: nat)
    ensures Pad(n, w + 6) == Pad(n / 1_000_000, w) + Pad(n % 1_000_000, 6)
  {
    Powers();
    hide Pad, Pow10;
    PadConcat(n / 1_000_000, n % 1_000_000, w, 6);
    assert Shift(n / 1_000_000, 6) + n % 1_000_000 == n;
  }

  /** A fraction cut after its first 3 or 6 digits: the number they write, then more digits. */
  lemma FractionSplits(b: nat, w: nat) returns (tail: string)
    requires b < SECOND && (w == 3 || w == 6) && w < Width(b)
    ensures Fraction(b) == "." + (Pad(b / Unit(w), w) + tail)
    ensures tail != "" && '0' <= tail[0] <= '9'
  {
    if Width(b) == 6 {
      tail := Pad(b / 1_000 % 1_000, 3);
      PadCut3(b / 1_000, 3);
      assert b / 1_000 / 1_000 == b / 1_000_000;
    } else if w == 3 {
      tail := Pad(b % 1_000_000, 6);
      PadCut6(b, 3);
    } else {
      tail := Pad(b % 1_000, 3);
      PadCut3(b, 6);
    }
  }

  lemma FractionOrder(a: nat, b: nat)
    requires a < SECOND && b < SECOND
    ensures Less(Fraction(a) + OFFSET, Fraction(b) + OFFSET) <==> a < b
    decreases Width(a) > Width(b)
  {
    Powers();
    if Width(a) == Width(b) {
      if a != 0 {
        var (x, y) := if Width(a) == 3 then (a / 1_000_000, b / 1_000_000)
                      else if Width(a) == 6 then (a / 1_000, b / 1_000) else (a, b);
        PadOrder(x, y, Width(a));
        LessConcat(Fraction(a), Fraction(b), OFFSET, OFFSET);
        LessIrreflexive(OFFSET);
        LessConcat(".", ".", Pad(x, Width(a)), Pad(y, Width(a)));
      } else {
        assert b == 0 && "" + OFFSET == OFFSET;
        LessIrreflexive(OFFSET);
      }
    } else if a == 0 {
      assert (Fraction(b) + OFFSET)[0] == '.';
    } else if b == 0 {
      assert (Fraction(a) + OFFSET)[0] == '.';
    } else if Width(a) < Width(b) {
      UnequalFractions(a, b);
    } else {
      UnequalFractions(b, a);
    }
  }

  lemma UnequalFractions(a: nat, b: nat)
    requires 0 < a < SECOND && 0 < b < SECOND && Width(a) < Width(b)
    ensures Less(Fraction(a) + OFFSET, Fraction(b) + OFFSET) <==> a < b
    ensures Less(Fraction(b) + OFFSET, Fraction(a) + OFFSET) <==> b < a
  {
    Powers();
    var w := Width(a);
    var (x, high) := (a / Unit(w), b / Unit(w));
    var tail := FractionSplits(b, w);
    var (p, q) := (Pad(x, w) + OFFSET, Pad(high, w) + (tail + OFFSET));
    assert Fraction(a) + OFFSET == "." + p;
    assert Fraction(b) + OFFSET == "." + q;
    LessConcat(".", ".", p, q);
    LessConcat(".", ".", q, p);
    ShorterFraction(x, high, w, tail + OFFSET);
    UnitOrder(a, b, Unit(w));
  }

  lemma UnitOrder(a: nat, b: nat, unit: nat)
    requires (unit == 1_000 || unit == 1_000_000) && a % unit == 0 && b % unit != 0
    ensures a / unit <= b / unit <==> a < b
  {
  }

  /** Two texts that start with fixed-width numbers compare by the numbers, then by the rest. */
  lemma FieldOrder(a: nat, b: nat, width: nat, separator: string, x: string, y: string)
    requires a < Pow10(width) && b < Pow10(width)
    ensures Less(Pad(a, width) + (separator + x), Pad(b, width) + (separator + y)) <==>
            a < b || (a == b && Less(x, y))
  {
    LessConcat(Pad(a, width), Pad(b, width), separator + x, separator + y);
    LessConcat(separator, separator, x, y);
    LessIrreflexive(separator);
    PadOrder(a, b, width);
  }

  lemma FieldsFit(day: nat)
    requires day < DaysBeforeYear(10_000)
    ensures var d := DateOf(day); d.year < 10_000 && d.month < 100 && d.day < 100
  {
    hide DaysBeforeYear, DateOf, DaysBeforeMonth, YearLength;
    var year := DateOf(day).year;
    if year > 10_000 { YearsAreOrdered(10_000, year); }
  }

  lemma DateTextOrder(d: Date, e: Date)
    requires d.year < 10_000 && d.month < 100 && d.day < 100
    requires e.year < 10_000 && e.month < 100 && e.day < 100
    ensures Less(DateText(d), DateText(e)) <==> DateBefore(d, e)
  {
    Powers();
    var (x, y) := (Pad(d.day, 2), Pad(e.day, 2));
    FieldOrder(d.year, e.year, 4, "-", Pad(d.month, 2) + ("-" + x), Pad(e.month, 2) + ("-" + y));
    FieldOrder(d.month, e.month, 2, "-", x, y);
    PadOrder(d.day, e.day, 2);
  }

  lemma DateOrder(a: nat, b: nat)
    requires a < DaysBeforeYear(10_000) && b < DaysBeforeYear(10_000)
    ensures Less(DateText(DateOf(a)), DateText(DateOf(b))) <==> a < b
  {
    FieldsFit(a);
    FieldsFit(b);
    DateTextOrder(DateOf(a), DateOf(b));
    if a < b { EarlierDayEarlierDate(a, b); }
    if b < a { EarlierDayEarlierDate(b, a); }
  }

  lemma TimeOrder(t: Instant, u: Instant)
    ensures Less(TimeText(t), TimeText(u)) <==> t % DAY < u % DAY
  {
    Powers();
    var (f, g) := (Fraction(NanosOf(t)) + OFFSET, Fraction(NanosOf(u)) + OFFSET);
    FractionOrder(NanosOf(t), NanosOf(u));
    var (s, s') := (Pad(SecondOf(t), 2) + f, Pad(SecondOf(u), 2) + g);
    FieldOrder(SecondOf(t), SecondOf(u), 2, "", f, g);
    assert "" + f == f && "" + g == g;
    var (m, m') := (Pad(MinuteOf(t), 2) + (":" + s), Pad(MinuteOf(u), 2) + (":" + s'));
    FieldOrder(MinuteOf(t), MinuteOf(u), 2, ":", s, s');
    FieldOrder(HourOf(t), HourOf(u), 2, ":", m, m');
  }

  /** In the years 0 to 9999, bytewise order of the stored text is order in time, whatever the
      number of fraction digits on either side, and equal texts are equal instants. */
  lemma TextOrderIsTimeOrder(t: Instant, u: Instant)
    requires FourDigitYear(t) && FourDigitYear(u)
    ensures Less(ToRfc3339(t), ToRfc3339(u)) <==> t < u
    ensures ToRfc3339(t) == ToRfc3339(u) <==> t == u
  {
    hide ToRfc3339, Less;
    TextOrder(t, u);
    TextOrder(u, t);
    LessIrreflexive(ToRfc3339(t));
  }

  lemma TextOrder(t: Instant, u: Instant)
    requires FourDigitYear(t) && FourDigitYear(u)
    ensures Less(ToRfc3339(t), ToRfc3339(u)) <==> t < u
  {
    hide ToRfc3339, Less, TimeText, DateText, DateOf;
    FourDigitText(t);
    FourDigitText(u);
    var (d, e) := (DateText(DateOf(DayNumber(t))), DateText(DateOf(DayNumber(u))));
    DateOrder(DayNumber(t), DayNumber(u));
    DateOrder(DayNumber(u), DayNumber(t));
    LessConcat(d, e, "T" + TimeText(t), "T" + TimeText(u));
    LessConcat("T", "T", TimeText(t), TimeText(u));
    LessIrreflexive("T");
    LessIrreflexive(d);
    TimeOrder(t, u);
    DaysThenRest(t, u);
  }

  /** Bytewise order of the stored texts, by which the database compares instants. */
  predicate TextBefore(t: Instant, u: Instant) { Less(ToRfc3339(t), ToRfc3339(u)) }

  /** Comparing any stored text with that of a clock in the years 0 to 9999: order in time, but for
      instants from the year 10000 on, whose `+` sorts below every digit. */
  lemma TextOrderExactly(next: Instant, now: Instant)
    requires FourDigitYear(now)
    ensures TextBefore(next, now) <==> next < now || next >= YEAR_10000
    ensures TextBefore(now, next) <==> now < next < YEAR_10000
  {
    FourDigitYears(next);
    FourDigitYears(now);
    if FourDigitYear(next) {
      TextOrderIsTimeOrder(next, now);
      TextOrderIsTimeOrder(now, next);
    } else {
      SignedText(next);
      FourDigitText(now);
      SignSortsFirst(ToRfc3339(next), DateText(DateOf(DayNumber(now))), "T" + TimeText(now));
    }
  }

  lemma SignSortsFirst(signed: string, date: string, rest: string)
    requires |signed| > 0 && signed[0] in {'+', '-'} && |date| > 0 && '0' <= date[0] <= '9'
    ensures Less(signed, date + rest) && !Less(date + rest, signed)
  {
  }

  lemma DaysThenRest(t: Instant, u: Instant)
    ensures t < u <==> t / DAY < u / DAY || (t / DAY == u / DAY && t % DAY < u % DAY)
  {
  }
}
