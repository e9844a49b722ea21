/**
  The proleptic Gregorian calendar behind JavaScript's `Date`, on day numbers: day 0 is
  1970-01-01 and a date is the number of whole days from it (the time value divided by
  the milliseconds in a day, at local midnight). `DaysFromCivil` and `CivilFromDays`
  convert between day numbers and (year, month 1..12, day) and are proved inverse;
  `MakeDay` and `Weekday` are the ECMAScript abstract operations of the same names.
 */
module Calendar {
  datatype Civil = Civil(year: int, month: int, day: int)

  predicate IsLeapYear(y: int) { y % 4 == 0 && (y % 100 != 0 || y % 400 == 0) }

  function DaysInMonth(y: int, m: int): (n: int)
    requires 1 <= m <= 12
    ensures 28 <= n <= 31
  {
    if m == 2 then (if IsLeapYear(y) then 29 else 28)
    else if m == 4 || m == 6 || m == 9 || m == 11 then 30
    else 31
  }

  predicate ValidCivil(c: Civil) { 1 <= c.month <= 12 && 1 <= c.day <= DaysInMonth(c.year, c.month) }

  function YearStart(yoe: int): int { 365 * yoe + yoe / 4 - yoe / 100 }
  function YearLength(yoe: int): int
  {
    if (yoe + 1) % 4 == 0 && ((yoe + 1) % 100 != 0 || yoe == 399) then 366 else 365
  }
  function YoeOf(doe: int): int
  {
    var c := if doe / 36524 < 3 then doe / 36524 else 3;
    var r := doe - 36524 * c;
    var q := r / 1461;
    var s := r - 1461 * q;
    var t := if s / 365 < 3 then s / 365 else 3;
    100 * c + 4 * q + t
  }
  function ShiftedMonth(m: int): int { if m > 2 then m - 3 else m + 9 }
  function MonthStart(mp: int): int { (153 * mp + 2) / 5 }
  function MonthOf(doy: int): int { (5 * doy + 2) / 153 }

  function DaysFromCivil(c: Civil): int
    requires 1 <= c.month <= 12
  {
    var sy := if c.month <= 2 then c.year - 1 else c.year;
    var era := sy / 400;
    var yoe := sy - era * 400;
    era * 146097 + YearStart(yoe) + MonthStart(ShiftedMonth(c.month)) + c.day - 1 - 719468
  }

  function CivilFromDays(n: int): Civil
  {
    var z := n + 719468;
    var era := z / 146097;
    CivilOfEraDay(era, z - era * 146097)
  }

  /** The date on day `doe` of era `era` (eras of 400 years start on 1 March 0000, 2000, ...). */
  function CivilOfEraDay(era: int, doe: int): Civil
  {
    var yoe := YoeOf(doe);
    CivilOfYear(era, yoe, doe - YearStart(yoe))
  }

  /** The date on day `doy` (counted from 1 March) of year `yoe` of era `era`. */
  function CivilOfYear(era: int, yoe: int, doy: int): Civil
  {
    var mp := MonthOf(doy);
    var m := if mp < 10 then mp + 3 else mp - 9;
    Civil(era * 400 + yoe + (if m <= 2 then 1 else 0), m, doy - MonthStart(mp) + 1)
  }

  lemma YoeBounds(doe: int)
    requires 0 <= doe < 146097
    ensures 0 <= YoeOf(doe) <= 399
    ensures YearStart(YoeOf(doe)) <= doe < YearStart(YoeOf(doe)) + YearLength(YoeOf(doe))
  {
    var c := if doe / 36524 < 3 then doe / 36524 else 3;
    var r := doe - 36524 * c;
    var q := r / 1461;
    var s := r - 1461 * q;
    var t := if s / 365 < 3 then s / 365 else 3;
    var yoe := 100 * c + 4 * q + t;
    assert YoeOf(doe) == yoe;
    assert 0 <= r && (c < 3 ==> r < 36524) && r < 36525;
    assert 0 <= q <= 24 && 0 <= s < 1461;
    assert 365 * t <= s && (t < 3 ==> s < 365 * t + 365);
    YearStartOfDigits(c, q, t);
    if t == 3 && q == 24 && c < 3 {
      assert s < 1460;
    }
    YearLengthOfDigits(c, q, t);
  }

  /** The start of year 100c + 4q + t of the era, from its centuries, 4-year blocks and years. */
  lemma YearStartOfDigits(c: int, q: int, t: int)
    requires 0 <= c <= 3 && 0 <= q <= 24 && 0 <= t <= 3
    ensures YearStart(100 * c + 4 * q + t) == 36524 * c + 1461 * q + 365 * t
  {
    var yoe := 100 * c + 4 * q + t;
    assert yoe / 4 == 25 * c + q;
    assert yoe / 100 == c;
  }

  /** Only the last year of a 4-year block is long, unless it ends a century other than the 4th. */
  lemma YearLengthOfDigits(c: int, q: int, t: int)
    requires 0 <= c <= 3 && 0 <= q <= 24 && 0 <= t <= 3
    ensures t < 3 ==> YearLength(100 * c + 4 * q + t) == 365
    ensures t == 3 && (q < 24 || c == 3) ==> YearLength(100 * c + 4 * q + t) == 366
    ensures YearLength(100 * c + 4 * q + t) >= 365
  {
    var yoe := 100 * c + 4 * q + t;
    assert (yoe + 1) % 4 == (t + 1) % 4;
    if t == 3 {
      assert (yoe + 1) % 100 == (4 * q + 4) % 100;
    }
  }
  lemma YoeOfStart(yoe: int, doy: int)
    requires 0 <= yoe <= 399 && 0 <= doy < YearLength(yoe)
    ensures YoeOf(YearStart(yoe) + doy) == yoe
  {
    var c, q, t := YoeDigits(yoe);
    var s := 365 * t + doy;
    var r := 1461 * q + s;
    YearWithinBlock(yoe, c, q, t, doy);
    assert YearStart(yoe) + doy == 36524 * c + r;
    assert (if (36524 * c + r) / 36524 < 3 then (36524 * c + r) / 36524 else 3) == c;
    assert r / 1461 == q;
    assert (if s / 365 < 3 then s / 365 else 3) == t;
  }

  /** A year of the era as centuries, 4-year blocks and years: 100c + 4q + t. */
  lemma YoeDigits(yoe: int) returns (c: int, q: int, t: int)
    requires 0 <= yoe <= 399
    ensures 0 <= c <= 3 && 0 <= q <= 24 && 0 <= t <= 3
    ensures yoe == 100 * c + 4 * q + t
    ensures YearStart(yoe) == 36524 * c + 1461 * q + 365 * t
  {
    c := yoe / 100;
    q := (yoe % 100) / 4;
    t := yoe % 4;
    assert yoe / 4 == 25 * c + q;
  }

  /** The day of the era stays within its century block and its 4-year block. */
  lemma YearWithinBlock(yoe: int, c: int, q: int, t: int, doy: int)
    requires 0 <= c <= 3 && 0 <= q <= 24 && 0 <= t <= 3 && yoe == 100 * c + 4 * q + t
    requires 0 <= doy < YearLength(yoe)
    ensures 0 <= 365 * t + doy < 1461
    ensures t < 3 ==> 365 * t + doy < 365 * t + 365
    ensures c < 3 ==> 1461 * q + 365 * t + doy < 36524
  {
    if t < 3 {
      assert (yoe + 1) % 4 != 0;
    }
    if c < 3 && q == 24 && t == 3 {
      assert (yoe + 1) % 100 == 0 && yoe != 399;
    }
  }
  lemma MonthBounds(doy: int)
    requires 0 <= doy < 366
    ensures 0 <= MonthOf(doy) <= 11
    ensures MonthStart(MonthOf(doy)) <= doy
    ensures MonthOf(doy) < 11 ==> doy < MonthStart(MonthOf(doy) + 1)
  {
  }
  lemma MonthOfStart(mp: int, k: int)
    requires 0 <= mp <= 11 && 0 <= k
    requires mp < 11 ==> MonthStart(mp) + k < MonthStart(mp + 1)
    requires MonthStart(mp) + k < 366
    ensures MonthOf(MonthStart(mp) + k) == mp
  {
  }

  lemma LeapAgrees(era: int, yoe: int)
    requires 0 <= yoe <= 399
    ensures YearLength(yoe) == 366 <==> IsLeapYear(era * 400 + yoe + 1)
  {
    EraRemainders(era, yoe + 1);
    assert (yoe + 1) % 400 == 0 <==> yoe == 399;
  }

  /** Whole eras do not change a year's remainders by 4, 100 and 400. */
  lemma EraRemainders(era: int, x: int)
    ensures (era * 400 + x) % 4 == x % 4
    ensures (era * 400 + x) % 100 == x % 100
    ensures (era * 400 + x) % 400 == x % 400
  {
    RemainderBy4(era * 400 + x, 100 * era + x / 4, x % 4);
    RemainderBy100(era * 400 + x, 4 * era + x / 100, x % 100);
    RemainderBy400(era * 400 + x, era + x / 400, x % 400);
  }

  lemma RemainderBy4(y: int, q: int, r: int)
    requires y == 4 * q + r && 0 <= r < 4
    ensures y % 4 == r
  {
  }

  lemma RemainderBy100(y: int, q: int, r: int)
    requires y == 100 * q + r && 0 <= r < 100
    ensures y % 100 == r
  {
  }

  lemma RemainderBy400(y: int, q: int, r: int)
    requires y == 400 * q + r && 0 <= r < 400
    ensures y % 400 == r
  {
  }

  lemma MonthLength(y: int, mp: int)
    requires 0 <= mp < 11
    ensures MonthStart(mp + 1) - MonthStart(mp) == DaysInMonth(y, if mp < 10 then mp + 3 else mp - 9)
  {
  }

  lemma EraOf(era: int, yoe: int)
    requires 0 <= yoe <= 399
    ensures (era * 400 + yoe) / 400 == era
  {
  }

  lemma CivilFromDaysValid(n: int)
    ensures ValidCivil(CivilFromDays(n))
    ensures DaysFromCivil(CivilFromDays(n)) == n
  {
    var era := (n + 719468) / 146097;
    var doe := n + 719468 - era * 146097;
    CivilOfParts(era, doe, n);
    CivilOfEraDayValid(era, doe);
  }

  lemma CivilOfEraDayValid(era: int, doe: int)
    requires 0 <= doe < 146097
    ensures ValidCivil(CivilOfEraDay(era, doe))
    ensures DaysFromCivil(CivilOfEraDay(era, doe)) == era * 146097 + doe - 719468
  {
    YoeBounds(doe);
    var yoe := YoeOf(doe);
    var doy := doe - YearStart(yoe);
    assert CivilOfEraDay(era, doe) == CivilOfYear(era, yoe, doy);
    CivilOfYearValid(era, yoe, doy);
  }

  lemma CivilOfYearValid(era: int, yoe: int, doy: int)
    requires 0 <= yoe <= 399 && 0 <= doy < YearLength(yoe)
    ensures ValidCivil(CivilOfYear(era, yoe, doy))
    ensures DaysFromCivil(CivilOfYear(era, yoe, doy)) == era * 146097 + YearStart(yoe) + doy - 719468
  {
    MonthBounds(doy);
    var mp := MonthOf(doy);
    var m := if mp < 10 then mp + 3 else mp - 9;
    var c := CivilOfYear(era, yoe, doy);
    assert c == Civil(era * 400 + yoe + (if m <= 2 then 1 else 0), m, doy - MonthStart(mp) + 1);
    EraOf(era, yoe);
    assert ShiftedMonth(m) == mp;
    if mp < 11 {
      MonthLength(c.year, mp);
    } else {
      LeapAgrees(era, yoe);
    }
  }

  lemma YearEnd(yoe: int)
    requires 0 <= yoe <= 399
    ensures YearStart(yoe) + YearLength(yoe) <= 146097
  {
  }

  lemma SplitEra(era: int, doe: int)
    requires 0 <= doe < 146097
    ensures (era * 146097 + doe) / 146097 == era
  {
  }

  lemma CivilOfParts(era: int, doe: int, n: int)
    requires 0 <= doe < 146097 && n == era * 146097 + doe - 719468
    ensures CivilFromDays(n) == CivilOfEraDay(era, doe)
  {
    SplitEra(era, doe);
    var z := n + 719468;
    assert z == era * 146097 + doe;
    assert z - z / 146097 * 146097 == doe;
  }

  lemma ShiftedParts(c: Civil) returns (era: int, yoe: int)
    requires 1 <= c.month <= 12
    ensures 0 <= yoe <= 399
    ensures era * 400 + yoe + (if c.month <= 2 then 1 else 0) == c.year
    ensures DaysFromCivil(c) == era * 146097 + YearStart(yoe) + MonthStart(ShiftedMonth(c.month)) + c.day - 1 - 719468
  {
    var sy := if c.month <= 2 then c.year - 1 else c.year;
    era := sy / 400;
    yoe := sy - era * 400;
  }

  lemma DoyInYear(c: Civil, era: int, yoe: int)
    requires ValidCivil(c) && 0 <= yoe <= 399
    requires era * 400 + yoe + (if c.month <= 2 then 1 else 0) == c.year
    ensures MonthStart(ShiftedMonth(c.month)) + c.day - 1 < YearLength(yoe)
    ensures ShiftedMonth(c.month) < 11 ==> MonthStart(ShiftedMonth(c.month)) + c.day - 1 < MonthStart(ShiftedMonth(c.month) + 1)
  {
    var mp := ShiftedMonth(c.month);
    if mp < 11 {
      MonthLength(c.year, mp);
      assert MonthStart(mp + 1) <= 337;
    } else {
      LeapAgrees(era, yoe);
    }
  }

  lemma RoundTripParts(c: Civil) returns (era: int, yoe: int, doe: int, doy: int)
    requires ValidCivil(c)
    ensures 0 <= doe < 146097
    ensures YoeOf(doe) == yoe && doe - YearStart(yoe) == doy
    ensures MonthOf(doy) == ShiftedMonth(c.month)
    ensures doy - MonthStart(ShiftedMonth(c.month)) + 1 == c.day
    ensures era * 400 + yoe + (if c.month <= 2 then 1 else 0) == c.year
    ensures DaysFromCivil(c) == era * 146097 + doe - 719468
  {
    era, yoe := ShiftedParts(c);
    var mp := ShiftedMonth(c.month);
    doy := MonthStart(mp) + c.day - 1;
    doe := YearStart(yoe) + doy;
    DoyInYear(c, era, yoe);
    YoeOfStart(yoe, doy);
    YearEnd(yoe);
    MonthOfStart(mp, c.day - 1);
  }

  lemma DaysFromCivilRoundTrip(c: Civil)
    requires ValidCivil(c)
    ensures CivilFromDays(DaysFromCivil(c)) == c
  {
    var era, yoe, doe, doy := RoundTripParts(c);
    CivilOfParts(era, doe, DaysFromCivil(c));
    CivilOfYearOfCivil(c, era, yoe, doe, doy);
  }

  lemma CivilOfYearOfCivil(c: Civil, era: int, yoe: int, doe: int, doy: int)
    requires 1 <= c.month <= 12
    requires YoeOf(doe) == yoe && doe - YearStart(yoe) == doy
    requires MonthOf(doy) == ShiftedMonth(c.month)
    requires doy - MonthStart(ShiftedMonth(c.month)) + 1 == c.day
    requires era * 400 + yoe + (if c.month <= 2 then 1 else 0) == c.year
    ensures CivilOfEraDay(era, doe) == c
  {
    assert CivilOfEraDay(era, doe) == CivilOfYear(era, yoe, doy);
  }

  /**
    ECMAScript MakeDay(year, month, date) with a 0-based month index: a month outside
    0..11 carries into the year and the date counts from the first of the month, so an
    out-of-range date rolls into a neighbouring month.
   */
  function MakeDay(year: int, monthIndex: int, date: int): int
  {
    DaysFromCivil(Civil(year + monthIndex / 12, monthIndex % 12 + 1, 1)) + date - 1
  }

  /** ECMAScript WeekDay: 0 is Sunday and 6 is Saturday; 1970-01-01 was a Thursday. */
  function Weekday(day: int): (w: int)
    ensures 0 <= w <= 6
  {
    (day + 4) % 7
  }

  /** A valid date built with MakeDay is the day number of that date. */
  lemma MakeDayOfValid(c: Civil)
    requires ValidCivil(c)
    ensures MakeDay(c.year, c.month - 1, c.day) == DaysFromCivil(c)
  {
    assert (c.month - 1) / 12 == 0 && (c.month - 1) % 12 + 1 == c.month;
    assert DaysFromCivil(c) == DaysFromCivil(Civil(c.year, c.month, 1)) + c.day - 1;
  }

  lemma EpochIsThursday()
    ensures DaysFromCivil(Civil(1970, 1, 1)) == 0
    ensures Weekday(0) == 4
  {
    assert YearStart(369) == 134774;
    assert MonthStart(10) == 306;
  }

  /** 2025-10-30, the source's default course start date, is day 20391, a Thursday. */
  lemma DefaultStartIsThursday()
    ensures DaysFromCivil(Civil(2025, 10, 30)) == 20391
    ensures Weekday(20391) == 4
  {
    assert YearStart(25) == 9131;
    assert MonthStart(7) == 214;
  }
}
