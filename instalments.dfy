/**
  components/InstalmentCalculator.tsx: splitting a course fee into equal monthly instalments
  from the course start date, and the clamp on the number of instalments.
 */
module InstalmentCalculator {
  import opened Wrappers
  import opened JsBuiltins
  import opened Calendar
  import opened DateUtils

  const MaxInstalments := 12

  /** Each instalment's share: the total split evenly, or 0 for a zero total or no instalments. */
  function InstalmentAmount(totalAmount: real, instalments: int): (amount: real)
    ensures totalAmount == 0.0 || instalments <= 0 ==> amount == 0.0
    ensures totalAmount != 0.0 && instalments > 0 ==> amount * instalments as real == totalAmount
  {
    if totalAmount != 0.0 && instalments > 0 then totalAmount / instalments as real else 0.0
  }

  /** One row of the schedule, numbered from 1. */
  datatype Instalment = Instalment(number: int, date: DateValue, amount: real)

  /**
    `d.setMonth(d.getMonth() + months)` on a date at local midnight: the same day of the
    month, `months` months on, with a day past the month's end rolling into the next month.
   */
  function AddMonths(date: DateValue, months: int): DateValue
  {
    match date
    case Invalid => Invalid
    case Valid(n) =>
      var c := CivilFromDays(n);
      Valid(MakeDay(c.year, c.month - 1 + months, c.day))
  }

  /**
    The schedule: `instalments` rows (none when the count is not positive), row i + 1 due i
    months after the start date, all for the same amount.
   */
  function InstalmentPlan(totalAmount: real, startDate: string, instalments: int): (plan: seq<Instalment>)
    ensures |plan| == if instalments > 0 then instalments else 0
    ensures forall i :: 0 <= i < |plan| ==> plan[i].number == i + 1
    ensures forall i :: 0 <= i < |plan| ==> plan[i].amount == InstalmentAmount(totalAmount, instalments)
    ensures forall i :: 0 <= i < |plan| ==> plan[i].date == AddMonths(ParseDateAsLocal(startDate), i)
  {
    var firstPaymentDate := ParseDateAsLocal(startDate);
    seq(if instalments > 0 then instalments else 0,
        i => Instalment(i + 1, AddMonths(firstPaymentDate, i), InstalmentAmount(totalAmount, instalments)))
  }

  function SumAmounts(plan: seq<Instalment>): real
  {
    if plan == [] then 0.0 else SumAmounts(plan[..|plan| - 1]) + plan[|plan| - 1].amount
  }

  lemma {:induction false} SumOfEqualAmounts(plan: seq<Instalment>, amount: real)
    requires forall i :: 0 <= i < |plan| ==> plan[i].amount == amount
    ensures SumAmounts(plan) == |plan| as real * amount
  {
    if plan != [] {
      SumOfEqualAmounts(plan[..|plan| - 1], amount);
    }
  }

  /** With a non-zero total and at least one instalment, the rows add up to the total. */
  lemma PlanSumsToTotal(totalAmount: real, startDate: string, instalments: int)
    requires totalAmount != 0.0 && instalments > 0
    ensures SumAmounts(InstalmentPlan(totalAmount, startDate, instalments)) == totalAmount
  {
    var plan := InstalmentPlan(totalAmount, startDate, instalments);
    SumOfEqualAmounts(plan, InstalmentAmount(totalAmount, instalments));
  }

  /** Adding 0 months gives back any valid date. */
  lemma AddNoMonths(date: DateValue)
    ensures AddMonths(date, 0) == date
  {
    if date.Valid? {
      CivilFromDaysValid(date.day);
      MakeDayOfValid(CivilFromDays(date.day));
    }
  }

  /** The first instalment is due on the start date itself. */
  lemma FirstInstalmentOnStartDate(totalAmount: real, startDate: string, instalments: int)
    requires instalments >= 1
    ensures InstalmentPlan(totalAmount, startDate, instalments)[0].date == ParseDateAsLocal(startDate)
  {
    AddNoMonths(ParseDateAsLocal(startDate));
  }

  /** The day number of a date is that of the first of its month plus the days after it. */
  lemma DayWithinMonth(year: int, month: int, day: int)
    requires 1 <= month <= 12
    ensures DaysFromCivil(Civil(year, month, day)) == DaysFromCivil(Civil(year, month, 1)) + day - 1
  {
  }

  /** The same day of the month, `months` months on, the month carrying into the year. */
  function MonthsLater(c: Civil, months: int): (later: Civil)
    ensures 1 <= later.month <= 12 && later.day == c.day
  {
    var m := c.month - 1 + months;
    Civil(c.year + m / 12, m % 12 + 1, c.day)
  }

  /**
    Adding months to a calendar date lands on the day number of that day of the month,
    `months` months on (a day past the month's end counts on into the next month).
   */
  lemma AddMonthsToCivil(c: Civil, months: int)
    requires ValidCivil(c)
    ensures AddMonths(Valid(DaysFromCivil(c)), months) == Valid(DaysFromCivil(MonthsLater(c, months)))
  {
    DaysFromCivilRoundTrip(c);
    AddMonthsOfDay(DaysFromCivil(c), c, months);
    MakeDayMonthsLater(c, months);
  }

  /** `setMonth` works on the calendar fields of the day. */
  lemma AddMonthsOfDay(n: int, c: Civil, months: int)
    requires CivilFromDays(n) == c
    ensures AddMonths(Valid(n), months) == Valid(MakeDay(c.year, c.month - 1 + months, c.day))
  {
  }

  lemma MakeDayMonthsLater(c: Civil, months: int)
    requires 1 <= c.month <= 12
    ensures MakeDay(c.year, c.month - 1 + months, c.day) == DaysFromCivil(MonthsLater(c, months))
  {
    var m := c.month - 1 + months;
    var later := MonthsLater(c, months);
    assert later == Civil(c.year + m / 12, m % 12 + 1, c.day);
    DayWithinMonth(later.year, later.month, later.day);
    assert MakeDay(c.year, m, c.day) == DaysFromCivil(Civil(later.year, later.month, 1)) + later.day - 1;
  }

  /**
    From a start day of the month up to 28, row i + 1 falls on that same day of the month,
    i months on: a valid date that reads back as itself.
   */
  lemma SameDayOfMonth(start: Civil, totalAmount: real, instalments: int, i: int)
    requires ValidCivil(start) && start.year >= 100 && start.day <= 28
    requires 0 <= i < instalments
    ensures ValidCivil(MonthsLater(start, i))
    ensures InstalmentPlan(totalAmount, IsoDate(start), instalments)[i].date == Valid(DaysFromCivil(MonthsLater(start, i)))
    ensures CivilFromDays(DaysFromCivil(MonthsLater(start, i))) == MonthsLater(start, i)
  {
    DueDateOfRow(start, totalAmount, instalments, i);
    DueDateIsValid(MonthsLater(start, i));
  }

  /** Row i + 1 of a schedule starting on a date the input field wrote. */
  lemma DueDateOfRow(start: Civil, totalAmount: real, instalments: int, i: int)
    requires ValidCivil(start) && start.year >= 100
    requires 0 <= i < instalments
    ensures InstalmentPlan(totalAmount, IsoDate(start), instalments)[i].date == Valid(DaysFromCivil(MonthsLater(start, i)))
  {
    ParseIsoDate(start);
    AddMonthsToCivil(start, i);
  }

  lemma DueDateIsValid(due: Civil)
    requires 1 <= due.month <= 12 && 1 <= due.day <= 28
    ensures ValidCivil(due) && CivilFromDays(DaysFromCivil(due)) == due
  {
    assert DaysInMonth(due.year, due.month) >= 28;
    DaysFromCivilRoundTrip(due);
  }

  /** The default course (fee 9500) from 2025-10-30 in 2 instalments: 4750 on Oct 30 and Nov 30. */
  lemma TwoInstalmentExample()
    ensures var plan := InstalmentPlan(9500.0, "2025-10-30", 2);
      |plan| == 2
      && plan[0] == Instalment(1, Valid(DaysFromCivil(Civil(2025, 10, 30))), 4750.0)
      && plan[1] == Instalment(2, Valid(DaysFromCivil(Civil(2025, 11, 30))), 4750.0)
  {
    ExampleRows();
    DefaultStartDateText();
  }

  lemma ExampleRows()
    ensures InstalmentPlan(9500.0, IsoDate(Civil(2025, 10, 30)), 2)[0].date == Valid(DaysFromCivil(Civil(2025, 10, 30)))
    ensures InstalmentPlan(9500.0, IsoDate(Civil(2025, 10, 30)), 2)[1].date == Valid(DaysFromCivil(Civil(2025, 11, 30)))
  {
    ExampleMonth();
    ParseIsoDate(Civil(2025, 10, 30));
    FirstInstalmentOnStartDate(9500.0, IsoDate(Civil(2025, 10, 30)), 2);
    DueDateOfRow(Civil(2025, 10, 30), 9500.0, 2, 1);
  }

  lemma ExampleMonth()
    ensures MonthsLater(Civil(2025, 10, 30), 1) == Civil(2025, 11, 30)
  {
  }

  /**
    The instalment-count field: `parseInt` of the text, with NaN and 0 read as 1, then held
    within 1 to 12.
   */
  function ClampInstalments(text: string): (count: int)
    ensures 1 <= count <= MaxInstalments
    ensures ParseInt(text).None? ==> count == 1
    ensures ParseInt(text).Some? && 1 <= ParseInt(text).value <= MaxInstalments ==> count == ParseInt(text).value
    ensures ParseInt(text).Some? && ParseInt(text).value > MaxInstalments ==> count == MaxInstalments
    ensures ParseInt(text).Some? && ParseInt(text).value < 1 ==> count == 1
  {
    var typed := IntOr(ParseInt(text), 1);
    var capped := if MaxInstalments < typed then MaxInstalments else typed;
    if 1 < capped then capped else 1
  }

  /** Typing 1 to 12 sets that count. */
  lemma ClampKeepsTypedCount(n: nat)
    requires 1 <= n <= MaxInstalments
    ensures ClampInstalments(Decimal(n)) == n
  {
    ParseIntOfDecimal(n, "");
    assert Decimal(n) + "" == Decimal(n);
  }
}
