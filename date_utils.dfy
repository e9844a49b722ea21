/**
  utils/dateUtils.ts: reading a `YYYY-MM-DD` field as a local calendar date, and counting
  working days (Monday to Friday) between two dates.
 */
module DateUtils {
  import opened Wrappers
  import opened JsBuiltins
  import opened Calendar

  /** A JavaScript `Date` at local midnight: its day number, or an invalid date (NaN). */
  datatype DateValue = Valid(day: int) | Invalid

  /** `a.getTime() < b.getTime()`: every comparison with NaN is false. */
  predicate Before(a: DateValue, b: DateValue) { a.Valid? && b.Valid? && a.day < b.day }

  /** `a.getTime() <= b.getTime()`. */
  predicate NotAfter(a: DateValue, b: DateValue) { a.Valid? && b.Valid? && a.day <= b.day }

  /** `d.setDate(d.getDate() + 1)`: the next calendar day; NaN stays NaN. */
  function NextDay(d: DateValue): DateValue
  {
    match d
    case Valid(n) => Valid(n + 1)
    case Invalid => Invalid
  }

  /** `new Date(year, monthIndex, date)` on whole numbers: a year 0..99 means 1900..1999. */
  function NewDate(year: int, monthIndex: int, date: int): int
  {
    var fullYear := if 0 <= year <= 99 then 1900 + year else year;
    MakeDay(fullYear, monthIndex, date)
  }

  /**
    parseDateAsLocal: split on '-', convert the first three pieces with `Number`, and build
    the local date with the 1-based month made 0-based. A missing or non-numeric piece
    gives an invalid date; out-of-range months and days roll over as in `new Date`.
   */
  function ParseDateAsLocal(s: string): (d: DateValue)
    ensures d.Valid? ==> |Split(s, '-')| >= 3
  {
    var parts := Split(s, '-');
    if |parts| < 3 then Invalid
    else
      match (ToNumber(parts[0]), ToNumber(parts[1]), ToNumber(parts[2]))
      case (Some(y), Some(m), Some(dd)) => Valid(NewDate(y, m as int - 1, dd))
      case _ => Invalid
  }

  /** The text a date input holds for a date: zero-padded year, month and day joined by '-'. */
  function IsoDate(c: Civil): string
    requires c.year >= 0 && 1 <= c.month <= 12 && c.day >= 1
  {
    PadZeros(Decimal(c.year), 4) + "-" + PadZeros(Decimal(c.month), 2) + "-" + PadZeros(Decimal(c.day), 2)
  }

  /** Reading "Y-M-D" builds `new Date(Y, M - 1, D)`. */
  lemma ParseIsoDateFields(c: Civil)
    requires c.year >= 0 && 1 <= c.month <= 12 && c.day >= 1
    ensures ParseDateAsLocal(IsoDate(c)) == Valid(NewDate(c.year, c.month - 1, c.day))
  {
    var y := PadZeros(Decimal(c.year), 4);
    var m := PadZeros(Decimal(c.month), 2);
    var d := PadZeros(Decimal(c.day), 2);
    PaddedField(c.year, 4);
    PaddedField(c.month, 2);
    PaddedField(c.day, 2);
    ThreeFields(y, m, d);
    assert IsoDate(c) == y + "-" + m + "-" + d;
  }

  /** A zero-padded field holds no `-` and reads back as its number. */
  lemma PaddedField(n: nat, width: nat)
    ensures '-' !in PadZeros(Decimal(n), width)
    ensures ToNumber(PadZeros(Decimal(n), width)) == Some(n)
  {
    PaddedDecimalValue(n, width);
  }

  /** Three fields without a `-`, joined by `-`, split back into those fields. */
  lemma ThreeFields(y: string, m: string, d: string)
    requires '-' !in y && '-' !in m && '-' !in d
    ensures Split(y + "-" + m + "-" + d, '-') == [y, m, d]
  {
    assert y + "-" + m + "-" + d == y + ['-'] + (m + ['-'] + d);
    SplitAt(y, '-', m + ['-'] + d);
    SplitAt(m, '-', d);
    SplitWhole(d, '-');
  }

  /**
    A valid date from year 100 on, written as the date input writes it, is read back as that
    calendar date: the day number of (Y, M, D), whose year, month and day are Y, M and D.
   */
  lemma ParseIsoDate(c: Civil)
    requires ValidCivil(c) && c.year >= 100
    ensures ParseDateAsLocal(IsoDate(c)) == Valid(DaysFromCivil(c))
    ensures CivilFromDays(DaysFromCivil(c)) == c
  {
    ParseIsoDateFields(c);
    MakeDayOfValid(c);
    DaysFromCivilRoundTrip(c);
  }

  /** The course start date a new pathway begins with, 2025-10-30, as the date field holds it. */
  lemma DefaultStartDateText()
    ensures IsoDate(Civil(2025, 10, 30)) == "2025-10-30"
    ensures ParseDateAsLocal("2025-10-30") == Valid(DaysFromCivil(Civil(2025, 10, 30)))
  {
    DefaultStartFields();
    assert "2025" + "-" + "10" + "-" + "30" == "2025-10-30";
    ParseIsoDate(Civil(2025, 10, 30));
  }

  lemma DefaultStartFields()
    ensures PadZeros(Decimal(2025), 4) == "2025"
    ensures PadZeros(Decimal(10), 2) == "10" && PadZeros(Decimal(30), 2) == "30"
  {
    assert Decimal(2025) == Decimal(202) + "5";
    assert Decimal(202) == Decimal(20) + "2";
    assert Decimal(20) == Decimal(2) + "0";
    assert Decimal(10) == "10";
    assert Decimal(30) == "30";
  }

  predicate IsWorkingDay(day: int) { Weekday(day) != 0 && Weekday(day) != 6 }

  /** The number of working days d with lo <= d < hi. */
  function WorkingDaysIn(lo: int, hi: int): (n: nat)
    ensures n <= if lo < hi then hi - lo else 0
    decreases hi - lo
  {
    if hi <= lo then 0 else WorkingDaysIn(lo, hi - 1) + (if IsWorkingDay(hi - 1) then 1 else 0)
  }

  /**
    What calculateWorkingDaysBetween returns: the working days in [date1, date2) when
    date1 <= date2, minus those in [date2, date1) otherwise; 0 when either date is NaN.
   */
  function WorkingDaysBetween(date1: DateValue, date2: DateValue): int
  {
    if date1.Valid? && date2.Valid? then
      if date1.day <= date2.day then WorkingDaysIn(date1.day, date2.day)
      else 0 - WorkingDaysIn(date2.day, date1.day)
    else 0
  }

  method CalculateWorkingDaysBetween(date1: DateValue, date2: DateValue) returns (result: int)
    ensures result == WorkingDaysBetween(date1, date2)
  {
    var sign := if NotAfter(date1, date2) then 1 else -1;
    var startDate := if sign == 1 then date1 else date2;
    var endDate := if sign == 1 then date2 else date1;
    ghost var ordered := startDate.Valid? && endDate.Valid?;
    var days := 0;
    var currentDate := startDate;
    while Before(currentDate, endDate)
      invariant ordered ==> startDate.day <= endDate.day
      invariant ordered ==> currentDate.Valid? && startDate.day <= currentDate.day <= endDate.day
      invariant ordered ==> days == WorkingDaysIn(startDate.day, currentDate.day)
      invariant !ordered ==> currentDate == startDate && days == 0
      decreases if currentDate.Valid? && endDate.Valid? then endDate.day - currentDate.day else 0
    {
      if IsWorkingDay(currentDate.day) {
        days := days + 1;
      }
      currentDate := NextDay(currentDate);
    }
    result := days * sign;
  }

  /** The count is the size of the set of weekdays in the half-open range. */
  lemma {:induction false} WorkingDaysAreWeekdays(lo: int, hi: int)
    requires lo <= hi
    ensures WorkingDaysIn(lo, hi) == |set d | lo <= d < hi && IsWorkingDay(d)|
    decreases hi - lo
  {
    if lo < hi {
      WorkingDaysAreWeekdays(lo, hi - 1);
      var before := set d | lo <= d < hi - 1 && IsWorkingDay(d);
      var all := set d | lo <= d < hi && IsWorkingDay(d);
      if IsWorkingDay(hi - 1) {
        assert all == before + {hi - 1};
      } else {
        assert all == before;
      }
    } else {
      assert (set d | lo <= d < hi && IsWorkingDay(d)) == {};
    }
  }

  /** Counting over [a, c) is counting over [a, b) and then over [b, c). */
  lemma {:induction false} WorkingDaysSplit(a: int, b: int, c: int)
    requires a <= b <= c
    ensures WorkingDaysIn(a, c) == WorkingDaysIn(a, b) + WorkingDaysIn(b, c)
    decreases c - b
  {
    if b < c {
      WorkingDaysSplit(a, b, c - 1);
    }
  }

  /** Any seven consecutive days hold exactly five working days. */
  lemma WorkingDaysInWeek(a: int)
    ensures WorkingDaysIn(a, a + 7) == 5
  {
    WeekUnrolled(a);
    WeekdaysFollow(a);
  }

  /** The seven days of a week counted one by one. */
  lemma WeekUnrolled(a: int)
    ensures WorkingDaysIn(a, a + 7) ==
      (if IsWorkingDay(a) then 1 else 0) + (if IsWorkingDay(a + 1) then 1 else 0) +
      (if IsWorkingDay(a + 2) then 1 else 0) + (if IsWorkingDay(a + 3) then 1 else 0) +
      (if IsWorkingDay(a + 4) then 1 else 0) + (if IsWorkingDay(a + 5) then 1 else 0) +
      (if IsWorkingDay(a + 6) then 1 else 0)
  {
    assert WorkingDaysIn(a, a + 1) == WorkingDaysIn(a, a + 0) + (if IsWorkingDay(a + 0) then 1 else 0);
    assert WorkingDaysIn(a, a + 2) == WorkingDaysIn(a, a + 1) + (if IsWorkingDay(a + 1) then 1 else 0);
    assert WorkingDaysIn(a, a + 3) == WorkingDaysIn(a, a + 2) + (if IsWorkingDay(a + 2) then 1 else 0);
    assert WorkingDaysIn(a, a + 4) == WorkingDaysIn(a, a + 3) + (if IsWorkingDay(a + 3) then 1 else 0);
    assert WorkingDaysIn(a, a + 5) == WorkingDaysIn(a, a + 4) + (if IsWorkingDay(a + 4) then 1 else 0);
    assert WorkingDaysIn(a, a + 6) == WorkingDaysIn(a, a + 5) + (if IsWorkingDay(a + 5) then 1 else 0);
  }

  /** The weekdays of the six days after `a`, without taking a remainder. */
  lemma WeekdaysFollow(a: int)
    ensures var w := Weekday(a);
      && Weekday(a + 1) == (if w + 1 < 7 then w + 1 else w + 1 - 7)
      && Weekday(a + 2) == (if w + 2 < 7 then w + 2 else w + 2 - 7)
      && Weekday(a + 3) == (if w + 3 < 7 then w + 3 else w + 3 - 7)
      && Weekday(a + 4) == (if w + 4 < 7 then w + 4 else w + 4 - 7)
      && Weekday(a + 5) == (if w + 5 < 7 then w + 5 else w + 5 - 7)
      && Weekday(a + 6) == (if w + 6 < 7 then w + 6 else w + 6 - 7)
  {
    WeekdayAfter(a, 1);
    WeekdayAfter(a, 2);
    WeekdayAfter(a, 3);
    WeekdayAfter(a, 4);
    WeekdayAfter(a, 5);
    WeekdayAfter(a, 6);
  }

  lemma WeekdayAfter(a: int, k: int)
    requires 0 <= k < 7
    ensures Weekday(a + k) == if Weekday(a) + k < 7 then Weekday(a) + k else Weekday(a) + k - 7
  {
    var q := (a + 4) / 7;
    var w := Weekday(a);
    assert a + 4 == 7 * q + w;
    if w + k < 7 {
      assert a + k + 4 == 7 * q + (w + k);
    } else {
      assert a + k + 4 == 7 * (q + 1) + (w + k - 7);
    }
  }

  /** Any three consecutive days hold at least one working day. */
  lemma WorkingDayInThree(a: int)
    ensures WorkingDaysIn(a, a + 3) >= 1
  {
    var w := Weekday(a);
    assert Weekday(a + 1) == (w + 1) % 7;
    assert Weekday(a + 2) == (w + 2) % 7;
    assert WorkingDaysIn(a, a + 3) == WorkingDaysIn(a, a + 2) + (if IsWorkingDay(a + 2) then 1 else 0);
    assert WorkingDaysIn(a, a + 2) == WorkingDaysIn(a, a + 1) + (if IsWorkingDay(a + 1) then 1 else 0);
    assert WorkingDaysIn(a, a + 1) == (if IsWorkingDay(a) then 1 else 0);
  }

  /** More days in the range never means fewer working days. */
  lemma WorkingDaysMonotone(a: int, b: int, c: int, d: int)
    requires a <= b <= c <= d
    ensures WorkingDaysIn(b, c) <= WorkingDaysIn(a, d)
  {
    WorkingDaysSplit(a, b, d);
    WorkingDaysSplit(b, c, d);
  }

  /** calculateWorkingDaysBetween(a, a) is 0: the loop body never runs. */
  lemma SameDateHasNoWorkingDays(a: DateValue)
    ensures WorkingDaysBetween(a, a) == 0
  {
  }

  /**
    The sign follows the direction, and the magnitude never exceeds the number of calendar
    days between the dates.
   */
  lemma WorkingDaysBetweenRange(date1: int, date2: int)
    ensures date1 <= date2 ==> 0 <= WorkingDaysBetween(Valid(date1), Valid(date2)) <= date2 - date1
    ensures date2 < date1 ==> date2 - date1 <= WorkingDaysBetween(Valid(date1), Valid(date2)) <= 0
  {
  }

  /** Swapping the dates flips the sign, NaN included. */
  lemma WorkingDaysBetweenAntisymmetric(date1: DateValue, date2: DateValue)
    ensures WorkingDaysBetween(date1, date2) == -WorkingDaysBetween(date2, date1)
  {
  }

  /** Counts over adjacent ranges add up, in either direction. */
  lemma WorkingDaysBetweenAdditive(a: int, b: int, c: int)
    requires a <= b <= c
    ensures WorkingDaysBetween(Valid(a), Valid(c))
         == WorkingDaysBetween(Valid(a), Valid(b)) + WorkingDaysBetween(Valid(b), Valid(c))
    ensures WorkingDaysBetween(Valid(c), Valid(a))
         == WorkingDaysBetween(Valid(c), Valid(b)) + WorkingDaysBetween(Valid(b), Valid(a))
  {
    WorkingDaysSplit(a, b, c);
  }
}
