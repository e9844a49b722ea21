/**
  components/RefundEstimator.tsx: the refund tier for a withdrawal date relative to the
  course start date, counted in working days.
 */
module RefundEstimator {
  import opened Types
  import opened Calendar
  import opened DateUtils

  /** What the estimator shows: the refund percentage, the refund amount and the reason. */
  datatype RefundEstimate = RefundEstimate(refundPercentage: int, refundAmount: real, message: string)

  const SelectStartMessage := "Select a course start date to estimate refund."
  const WithinSevenDaysMessage := "Withdrawal within 7 working days after course start."
  const AfterSevenDaysMessage := "Withdrawal more than 7 working days after course start."
  const LongNoticeMessage := "More than 30 working days' notice before course start."
  const ShortNoticeMessage := "1-30 working days' notice before course start."
  const OnStartMessage := "Withdrawal on course start date."

  /**
    The start date the estimator begins with: the first pathway course's start date when it
    has one, else today's date (`today` is the `YYYY-MM-DD` text of the current UTC date).
   */
  function DefaultStartDate(pathwayCourses: seq<PathwayCourse>, today: string): (startDate: string)
    ensures |pathwayCourses| > 0 && pathwayCourses[0].startDate != "" ==> startDate == pathwayCourses[0].startDate
    ensures |pathwayCourses| == 0 || pathwayCourses[0].startDate == "" ==> startDate == today
  {
    if |pathwayCourses| > 0 && pathwayCourses[0].startDate != "" then pathwayCourses[0].startDate
    else today
  }

  /** The refund for a tier: `totalPayable * (percentage / 100)`. */
  function Tier(percentage: int, totalPayable: real, message: string): RefundEstimate
  {
    RefundEstimate(percentage, totalPayable * (percentage as real / 100.0), message)
  }

  /**
    The working days the after-start loop counts: from the day after the start date through
    the withdrawal date, both included.
   */
  function DaysAfterStart(start: int, withdrawal: int): nat
  {
    WorkingDaysIn(start + 1, withdrawal + 1)
  }

  /**
    The refund for two parsed dates. Every comparison with an invalid date is false, so an
    invalid date lands in the on-or-before branch with 0 working days of notice.
   */
  function RefundOnDates(start: DateValue, withdrawal: DateValue, totalPayable: real): RefundEstimate
  {
    if Before(start, withdrawal) then
      var daysAfter := DaysAfterStart(start.day, withdrawal.day);
      if 0 < daysAfter <= 7 then Tier(30, totalPayable, WithinSevenDaysMessage)
      else Tier(0, totalPayable, AfterSevenDaysMessage)
    else
      var notice := WorkingDaysBetween(withdrawal, start);
      if notice > 30 then Tier(70, totalPayable, LongNoticeMessage)
      else if notice > 0 then Tier(50, totalPayable, ShortNoticeMessage)
      else Tier(50, totalPayable, OnStartMessage)
  }

  /** The memoised estimate for the two date fields and the total payable. */
  function RefundPolicy(estimatorStartDate: string, withdrawalDate: string, totalPayable: real): RefundEstimate
  {
    if estimatorStartDate == "" then RefundEstimate(0, 0.0, SelectStartMessage)
    else RefundOnDates(ParseDateAsLocal(estimatorStartDate), ParseDateAsLocal(withdrawalDate), totalPayable)
  }

  method EstimateRefund(estimatorStartDate: string, withdrawalDate: string, totalPayable: real)
    returns (estimate: RefundEstimate)
    ensures estimate == RefundPolicy(estimatorStartDate, withdrawalDate, totalPayable)
  {
    if estimatorStartDate == "" {
      return RefundEstimate(0, 0.0, SelectStartMessage);
    }
    var firstCourseStartDate := ParseDateAsLocal(estimatorStartDate);
    var withdrawal := ParseDateAsLocal(withdrawalDate);
    estimate := EstimateRefundOnDates(firstCourseStartDate, withdrawal, totalPayable);
  }

  /** The body of the estimate once both fields are read as dates. */
  method EstimateRefundOnDates(firstCourseStartDate: DateValue, withdrawal: DateValue, totalPayable: real)
    returns (estimate: RefundEstimate)
    ensures estimate == RefundOnDates(firstCourseStartDate, withdrawal, totalPayable)
  {
    var percentage := 0;
    var msg := "";
    if Before(firstCourseStartDate, withdrawal) {
      var daysAfter := 0;
      var currentDate := NextDay(firstCourseStartDate);
      while NotAfter(currentDate, withdrawal)
        invariant currentDate.Valid? && firstCourseStartDate.day < currentDate.day <= withdrawal.day + 1
        invariant daysAfter == WorkingDaysIn(firstCourseStartDate.day + 1, currentDate.day)
        decreases withdrawal.day + 1 - currentDate.day
      {
        if IsWorkingDay(currentDate.day) {
          daysAfter := daysAfter + 1;
        }
        currentDate := NextDay(currentDate);
      }
      if daysAfter > 0 && daysAfter <= 7 {
        percentage := 30;
        msg := WithinSevenDaysMessage;
      } else {
        percentage := 0;
        msg := AfterSevenDaysMessage;
      }
    } else {
      var workingDaysBeforeCommencement := CalculateWorkingDaysBetween(withdrawal, firstCourseStartDate);
      if workingDaysBeforeCommencement > 30 {
        percentage := 70;
        msg := LongNoticeMessage;
      } else {
        percentage := 50;
        if workingDaysBeforeCommencement > 0 {
          msg := ShortNoticeMessage;
        } else {
          msg := OnStartMessage;
        }
      }
    }
    estimate := RefundEstimate(percentage, totalPayable * (percentage as real / 100.0), msg);
  }

  /** Every estimate is one of the policy's tiers, and the amount is that share of the total. */
  lemma RefundIsAPolicyTier(start: DateValue, withdrawal: DateValue, totalPayable: real)
    ensures var e := RefundOnDates(start, withdrawal, totalPayable);
      (e.refundPercentage == 0 || e.refundPercentage == 30 || e.refundPercentage == 50 || e.refundPercentage == 70)
      && e.refundAmount == totalPayable * e.refundPercentage as real / 100.0
  {
  }

  /** A refund never exceeds the total payable and is never negative. */
  lemma RefundAmountBounds(start: DateValue, withdrawal: DateValue, totalPayable: real)
    requires totalPayable >= 0.0
    ensures 0.0 <= RefundOnDates(start, withdrawal, totalPayable).refundAmount <= totalPayable
  {
  }

  /**
    After the start date: 30% exactly when 1 to 7 working days were counted after the start,
    else nothing.
   */
  lemma AfterStartTiers(start: int, withdrawal: int, totalPayable: real)
    requires start < withdrawal
    ensures var e := RefundOnDates(Valid(start), Valid(withdrawal), totalPayable);
      (e.refundPercentage == 30 <==> 1 <= DaysAfterStart(start, withdrawal) <= 7)
      && (e.message == WithinSevenDaysMessage <==> 1 <= DaysAfterStart(start, withdrawal) <= 7)
      && (e.refundPercentage != 30 ==> e.refundPercentage == 0 && e.message == AfterSevenDaysMessage)
  {
    assert |WithinSevenDaysMessage| != |AfterSevenDaysMessage|;
  }

  /**
    On or before the start date: 70% with more than 30 working days of notice, 50% otherwise;
    the on-start message exactly when no working day lies from the withdrawal up to the start.
   */
  lemma BeforeStartTiers(start: int, withdrawal: int, totalPayable: real)
    requires withdrawal <= start
    ensures var e := RefundOnDates(Valid(start), Valid(withdrawal), totalPayable);
      (e.refundPercentage == 70 <==> WorkingDaysIn(withdrawal, start) > 30)
      && (e.refundPercentage != 70 ==> e.refundPercentage == 50)
      && (e.message == LongNoticeMessage <==> WorkingDaysIn(withdrawal, start) > 30)
      && (e.message == ShortNoticeMessage <==> 1 <= WorkingDaysIn(withdrawal, start) <= 30)
      && (e.message == OnStartMessage <==> WorkingDaysIn(withdrawal, start) == 0)
  {
    assert |LongNoticeMessage| != |ShortNoticeMessage| && |ShortNoticeMessage| != |OnStartMessage| && |LongNoticeMessage| != |OnStartMessage|;
  }

  /** An invalid date (such as an emptied withdrawal field) gets the on-start tier: 50%. */
  lemma InvalidDateGetsOnStartTier(start: DateValue, withdrawal: DateValue, totalPayable: real)
    requires start.Invalid? || withdrawal.Invalid?
    ensures RefundOnDates(start, withdrawal, totalPayable) == Tier(50, totalPayable, OnStartMessage)
  {
  }

  /**
    A weekend withdrawal right before a Monday start counts no working day of notice, so it
    is reported as a withdrawal on the start date.
   */
  lemma WeekendBeforeMondayStart(start: int, totalPayable: real)
    requires Weekday(start) == 1
    ensures RefundOnDates(Valid(start), Valid(start - 2), totalPayable) == Tier(50, totalPayable, OnStartMessage)
    ensures RefundOnDates(Valid(start), Valid(start - 1), totalPayable) == Tier(50, totalPayable, OnStartMessage)
  {
    assert Weekday(start - 1) == 0 && Weekday(start - 2) == 6;
    assert WorkingDaysIn(start - 2, start) == WorkingDaysIn(start - 2, start - 1);
  }

  /**
    A withdrawal on the Saturday after a Friday start counts no working day after the start
    and gets no refund, with the more-than-7-days message.
   */
  lemma SaturdayAfterFridayStart(start: int, totalPayable: real)
    requires Weekday(start) == 5
    ensures RefundOnDates(Valid(start), Valid(start + 1), totalPayable) == Tier(0, totalPayable, AfterSevenDaysMessage)
  {
    assert Weekday(start + 1) == 6;
    assert DaysAfterStart(start, start + 1) == WorkingDaysIn(start + 1, start + 1) + 0;
  }

  /**
    The one exception to the rule that a later withdrawal never gets more: after a Friday
    start, withdrawing on the Saturday gives 0% but withdrawing on the Monday gives 30%.
   */
  lemma WeekendGapAfterFridayStart(start: int, totalPayable: real)
    requires Weekday(start) == 5
    ensures RefundOnDates(Valid(start), Valid(start + 1), totalPayable).refundPercentage == 0
    ensures RefundOnDates(Valid(start), Valid(start + 3), totalPayable).refundPercentage == 30
  {
    SaturdayAfterFridayStart(start, totalPayable);
    assert Weekday(start + 1) == 6 && Weekday(start + 2) == 0 && Weekday(start + 3) == 1;
    assert WorkingDaysIn(start + 1, start + 3) == 0;
    assert DaysAfterStart(start, start + 3) == 1;
  }

  /**
    That is the only way a withdrawal after the start counts no working day: it is on a
    weekend, at most two days after the start.
   */
  lemma {:induction false} NoDaysAfterOnlyOnNearWeekend(start: int, withdrawal: int)
    requires start < withdrawal && DaysAfterStart(start, withdrawal) == 0
    ensures withdrawal - start <= 2
    ensures Weekday(withdrawal) == 0 || Weekday(withdrawal) == 6
  {
    if withdrawal - start > 2 {
      WorkingDayInThree(start + 1);
      WorkingDaysMonotone(start + 1, start + 1, start + 4, withdrawal + 1);
    }
    assert WorkingDaysIn(start + 1, withdrawal + 1)
        == WorkingDaysIn(start + 1, withdrawal) + (if IsWorkingDay(withdrawal) then 1 else 0);
  }

  /**
    The percentage never rises as the withdrawal date moves later, except out of that
    weekend gap: once a working day has been counted after the start, or while the
    withdrawal is on or before it, any later withdrawal gets no larger refund.
   */
  lemma {:induction false} LaterWithdrawalNeverGainsOnceCounting(start: int, w1: int, w2: int, totalPayable: real)
    requires w1 <= w2
    requires w1 <= start || DaysAfterStart(start, w1) >= 1
    ensures RefundOnDates(Valid(start), Valid(w2), totalPayable).refundPercentage
         <= RefundOnDates(Valid(start), Valid(w1), totalPayable).refundPercentage
  {
    if w2 <= start {
      WorkingDaysSplit(w1, w2, start);
    } else if start < w1 {
      WorkingDaysSplit(start + 1, w1 + 1, w2 + 1);
    }
  }

  /** Any withdrawal on or before the start gets at least the refund of any withdrawal after it. */
  lemma NoticeBeatsLateWithdrawal(start: int, w1: int, w2: int, totalPayable: real)
    requires w1 <= start < w2
    ensures RefundOnDates(Valid(start), Valid(w2), totalPayable).refundPercentage
         < RefundOnDates(Valid(start), Valid(w1), totalPayable).refundPercentage
  {
  }

  /** The start date the estimator opens with is empty only when today's date is. */
  lemma DefaultStartDateIsSet(pathwayCourses: seq<PathwayCourse>, today: string)
    requires today != ""
    ensures DefaultStartDate(pathwayCourses, today) != ""
  {
  }

  /** Once a start date is entered, the estimate is always one of the five tier messages. */
  lemma StartDateGivesATier(estimatorStartDate: string, withdrawalDate: string, totalPayable: real)
    requires estimatorStartDate != ""
    ensures RefundPolicy(estimatorStartDate, withdrawalDate, totalPayable).message != SelectStartMessage
  {
    assert SelectStartMessage[44] == 'd' && ShortNoticeMessage[44] == 't';
  }

  /**
    Start Thursday 2025-10-30, withdrawal Monday 2025-11-10: Oct 31 and Nov 3 to Nov 10 are
    7 working days after the start, so 30% of the total.
   */
  lemma ThirtyPercentExample(totalPayable: real)
    ensures RefundPolicy("2025-10-30", "2025-11-10", totalPayable) == Tier(30, totalPayable, WithinSevenDaysMessage)
  {
    ExampleDates();
    ExampleDaysAfter();
  }

  lemma ExampleDates()
    ensures ParseDateAsLocal("2025-10-30") == Valid(20391)
    ensures ParseDateAsLocal("2025-11-10") == Valid(20402)
  {
    ExampleStartDate();
    ExampleWithdrawalDate();
  }

  lemma ExampleStartDate()
    ensures ParseDateAsLocal("2025-10-30") == Valid(20391)
  {
    DefaultStartIsThursday();
    DefaultStartDateText();
  }

  lemma ExampleWithdrawalDate()
    ensures ParseDateAsLocal("2025-11-10") == Valid(20402)
  {
    ExampleWithdrawalDay();
    ParseIsoDate(Civil(2025, 11, 10));
    DefaultStartFields();
    assert JsBuiltins.Decimal(11) == "11";
    assert "2025" + "-" + "11" + "-" + "10" == "2025-11-10";
  }

  lemma ExampleWithdrawalDay()
    ensures DaysFromCivil(Civil(2025, 11, 10)) == 20402
  {
    assert YearStart(25) == 9131;
    assert MonthStart(8) == 245;
  }

  lemma ExampleDaysAfter()
    ensures DaysAfterStart(20391, 20402) == 7
  {
    WorkingDaysInWeek(20392);
    assert Weekday(20399) == 5 && Weekday(20400) == 6 && Weekday(20401) == 0 && Weekday(20402) == 1;
    assert WorkingDaysIn(20399, 20403) == 2;
    WorkingDaysSplit(20392, 20399, 20403);
  }

  /**
    Start Thursday 2025-10-30, withdrawal Monday 2025-09-01: at least 35 working days of
    notice (seven full weeks), so 70% of the total.
   */
  lemma LongNoticeExample(totalPayable: real)
    ensures RefundPolicy("2025-10-30", "2025-09-01", totalPayable) == Tier(70, totalPayable, LongNoticeMessage)
  {
    ExampleStartDate();
    EarlyWithdrawalDate();
    SevenWeeksOfNotice();
  }

  lemma EarlyWithdrawalDay()
    ensures DaysFromCivil(Civil(2025, 9, 1)) == 20332
  {
    assert YearStart(25) == 9131;
    assert MonthStart(6) == 184;
  }

  lemma EarlyWithdrawalDate()
    ensures ParseDateAsLocal("2025-09-01") == Valid(20332)
  {
    EarlyWithdrawalDay();
    ParseIsoDate(Civil(2025, 9, 1));
    DefaultStartFields();
    assert JsBuiltins.Decimal(9) == "9" && JsBuiltins.Decimal(1) == "1";
    assert JsBuiltins.PadZeros("9", 2) == "09" && JsBuiltins.PadZeros("1", 2) == "01";
    assert "2025" + "-" + "09" + "-" + "01" == "2025-09-01";
  }

  lemma SevenWeeksOfNotice()
    ensures WorkingDaysIn(20332, 20391) > 30
  {
    var w := 20332;
    WorkingDaysInWeek(w);
    WorkingDaysInWeek(w + 7);
    WorkingDaysInWeek(w + 14);
    WorkingDaysInWeek(w + 21);
    WorkingDaysInWeek(w + 28);
    WorkingDaysInWeek(w + 35);
    WorkingDaysInWeek(w + 42);
    WorkingDaysSplit(w, w + 7, w + 14);
    WorkingDaysSplit(w, w + 14, w + 21);
    WorkingDaysSplit(w, w + 21, w + 28);
    WorkingDaysSplit(w, w + 28, w + 35);
    WorkingDaysSplit(w, w + 35, w + 42);
    WorkingDaysSplit(w, w + 42, w + 49);
    WorkingDaysMonotone(w, w, w + 49, 20391);
  }

  /**
    Start Thursday 2025-10-30, withdrawal Tuesday 2025-11-04: Oct 31, Nov 3 and Nov 4 are
    3 working days after the start, so 30% of the total.
   */
  lemma ThreeDaysAfterExample(totalPayable: real)
    ensures RefundPolicy("2025-10-30", "2025-11-04", totalPayable) == Tier(30, totalPayable, WithinSevenDaysMessage)
  {
    ExampleStartDate();
    EarlyCourseWeekDate();
    ThreeDaysAfter();
  }

  lemma ThreeDaysAfter()
    ensures DaysAfterStart(20391, 20396) == 3
  {
    assert Weekday(20392) == 5 && Weekday(20393) == 6 && Weekday(20394) == 0;
    assert Weekday(20395) == 1 && Weekday(20396) == 2;
    assert WorkingDaysIn(20392, 20395) == 1;
  }

  lemma EarlyCourseWeekDay()
    ensures DaysFromCivil(Civil(2025, 11, 4)) == 20396
  {
    assert YearStart(25) == 9131;
    assert MonthStart(8) == 245;
  }

  lemma EarlyCourseWeekDate()
    ensures ParseDateAsLocal("2025-11-04") == Valid(20396)
  {
    EarlyCourseWeekDay();
    ParseIsoDate(Civil(2025, 11, 4));
    DefaultStartFields();
    assert JsBuiltins.Decimal(11) == "11" && JsBuiltins.Decimal(4) == "4";
    assert JsBuiltins.PadZeros("4", 2) == "04";
    assert "2025" + "-" + "11" + "-" + "04" == "2025-11-04";
  }
}
