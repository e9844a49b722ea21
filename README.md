# United Ceres College fee calculator — a Dafny model

This project models the calculating core of the United Ceres College fee calculator, a React
application. A student builds a *pathway* of courses. For each course they tick optional
(miscellaneous) fees and choose a start date and a number of instalments. The application
then quotes four things: the base and optional-fee totals, a scholarship or discount
(floored at zero), 9% GST and living costs. A refund estimator classifies a withdrawal date
against the course start date into the college's 70 / 50 / 30 / 0 % refund tiers, counting
working days (Monday to Friday).

The model is organised by source file:

| Dafny module | file | source |
|---|---|---|
| `Calendar` | calendar.dfy | the proleptic Gregorian calendar behind JavaScript `Date`. Day numbers from 1970-01-01, `MakeDay` and `WeekDay` as ECMAScript defines them, and a proved round trip between day numbers and (year, month, day) |
| `JsBuiltins` | js_builtins.dfy | the JavaScript built-ins the core relies on: `split`, `Number` on a date field, `parseInt`, `parseFloat`, `x \|\| fallback`, `find`, `filter` |
| `DateUtils` | date_utils.dfy | `utils/dateUtils.ts`: `parseDateAsLocal` and `calculateWorkingDaysBetween` |
| `RefundEstimator` | refund_estimator.dfy | `components/RefundEstimator.tsx`: the default start date and the refund estimate |
| `App` | app.dfy | `App.tsx`: the three pathway edits, the per-course details and the quotation totals |
| `InstalmentCalculator` | instalments.dfy | `components/InstalmentCalculator.tsx`: the instalment amount, the schedule and the count clamp |
| `MiscellaneousFees` | misc_fees.dfy | `components/MiscellaneousFees.tsx`: the two selection handlers, the quantity field and the standard/service split |
| `ScholarshipCalculator` | scholarship.dfy | `components/ScholarshipCalculator.tsx`: the type and value handlers and the unit symbol |
| `FeeBreakdown` | fee_breakdown.dfy | `components/FeeBreakdown.tsx`: application fee, course fees and total |
| `Types`, `CourseData`, `Wrappers` | types.dfy, course_data.dfy, wrappers.dfy | the records of `types.ts`, a few catalog records of `data/courseData.ts` used in examples, and `Option` |

How the model represents the source:

- **Dates.** A JavaScript `Date` at local midnight is `DateValue.Valid(day)`, where `day` counts days from 1970-01-01. A NaN date is `Invalid`, and every comparison with it is false, as in JavaScript. `getDay()` is `(day + 4) % 7`. `setDate(getDate() + 1)` is `day + 1`. `setMonth(getMonth() + i)` is `MakeDay` with the month index moved by `i`.
- **Money.** Amounts are exact `real`s.
- **Optional-fee selection.** A `MiscFeeSelection` is a `map<string, int>`. The optional-fee total is a sum over the selected ids that does not depend on their order, because the order of `Object.entries` is left open.
- **Loops and handlers.** The source's loops are methods with loop invariants, each proved equal to a specification function:
  - the working-day loop
  - the days-after-start loop
  - the `forEach` over the selection
  - the pathway `map`/`reduce`

  The selection handlers copy the dictionary and change one key. They are methods that return the new map.

## Model

| member | source | states |
|---|---|---|
| `DateUtils.ParseIsoDateFields` | utils/dateUtils.ts:9-13 | splitting a zero-padded `Y-M-D` at `-` and reading each field with `Number` gives `new Date(Y, M - 1, D)` |
| `DateUtils.ParseIsoDate` | utils/dateUtils.ts:9-13 | for a valid calendar date (year ≥ 100) the parsed date is that date's day number, which reads back as the same year, month and day |
| `DateUtils.NewDate` | utils/dateUtils.ts:12 | (no contract) `new Date(year, monthIndex, date)` on whole numbers: a year 0..99 means 1900..1999, then `MakeDay` |
| `DateUtils.ParseDateAsLocal` | utils/dateUtils.ts:9-13 | a valid result needs at least three `-`-separated fields |
| `DateUtils.DefaultStartDateText` | App.tsx:25 | the default start date `2025-10-30` is the ISO text of 30 Oct 2025 and parses to that day |
| `DateUtils.WorkingDaysIn` | utils/dateUtils.ts:33-40 | the working days in `[lo, hi)` are never more than the days in it |
| `DateUtils.CalculateWorkingDaysBetween` | utils/dateUtils.ts:24-43 | the loop returns the working days in `[date1, date2)`, or minus those in `[date2, date1)` when date2 is earlier; 0 when a date is NaN |
| `DateUtils.WorkingDaysAreWeekdays` | utils/dateUtils.ts:33-40 | the count is the number of days d with lo ≤ d < hi whose weekday is neither Sunday nor Saturday |
| `DateUtils.SameDateHasNoWorkingDays` | utils/dateUtils.ts:34 | the result for (a, a) is 0 |
| `DateUtils.WorkingDaysBetweenRange` | utils/dateUtils.ts:26-42 | the result is between 0 and the day count when date1 ≤ date2, and between minus the day count and 0 otherwise |
| `DateUtils.WorkingDaysBetweenAntisymmetric` | utils/dateUtils.ts:26-42 | f(a, b) = −f(b, a) |
| `DateUtils.WorkingDaysBetweenAdditive` | utils/dateUtils.ts:24-43 | for a ≤ b ≤ c, f(a, c) = f(a, b) + f(b, c) |
| `DateUtils.WorkingDaysSplit` | utils/dateUtils.ts:34-40 | counting over `[a, c)` is counting over `[a, b)` then `[b, c)` |
| `DateUtils.WorkingDaysInWeek` | utils/dateUtils.ts:34-38 | any seven consecutive days hold exactly five working days |
| `DateUtils.WorkingDayInThree` | utils/dateUtils.ts:34-38 | any three consecutive days hold at least one working day |
| `DateUtils.WorkingDaysMonotone` | utils/dateUtils.ts:34-40 | a larger range never holds fewer working days |
| `Calendar.DaysFromCivilRoundTrip` | utils/dateUtils.ts:12 | a valid (year, month, day) converted to a day number and back is itself |
| `Calendar.CivilFromDaysValid` | utils/dateUtils.ts:12 | every day number is a valid calendar date, and converting that date back gives the same day number |
| `Calendar.MakeDayOfValid` | utils/dateUtils.ts:12 | ECMAScript `MakeDay(y, m − 1, d)` on a valid date is that date's day number; it is what `new Date(y, m − 1, d)` builds for years from 100 on |
| `Calendar.MakeDay` | utils/dateUtils.ts:12 | (no contract) ECMAScript MakeDay with a 0-based month index: a month outside 0..11 carries into the year, and the date counts from the first of that month, so an out-of-range day rolls into a neighbouring month |
| `Calendar.LeapAgrees` | utils/dateUtils.ts:12 | the 366-day years of the era arithmetic are exactly the Gregorian leap years |
| `Calendar.Weekday` | utils/dateUtils.ts:35 | `getDay()` is always 0 (Sunday) to 6 (Saturday) |
| `Calendar.EpochIsThursday` | utils/dateUtils.ts:35 | 1970-01-01 is day 0 and a Thursday |
| `Calendar.DefaultStartIsThursday` | App.tsx:25 | the default start date 2025-10-30 is day 20391, a Thursday |
| `RefundEstimator.DefaultStartDate` | components/RefundEstimator.tsx:20-27 | the estimator starts from the first pathway course's start date when it has one, else from today |
| `RefundEstimator.DefaultStartDateIsSet` | components/RefundEstimator.tsx:20-27 | that start date is never empty while today's date is not |
| `RefundEstimator.EstimateRefund` | components/RefundEstimator.tsx:29-88 | the memo returns `RefundPolicy`: 0, 0 and the select-a-date message for an empty start date, else the estimate on the two parsed dates |
| `RefundEstimator.EstimateRefundOnDates` | components/RefundEstimator.tsx:34-86 | the days-after loop counts the working days from the day after the start through the withdrawal day, and the branches give `RefundOnDates` |
| `RefundEstimator.RefundIsAPolicyTier` | components/RefundEstimator.tsx:41-85 | the percentage is one of 0, 30, 50, 70 and the amount is that share of the total payable |
| `RefundEstimator.RefundAmountBounds` | components/RefundEstimator.tsx:82-85 | with a non-negative total, 0 ≤ refund ≤ total |
| `RefundEstimator.AfterStartTiers` | components/RefundEstimator.tsx:44-64 | after the start: 30% with the within-7-days message exactly when 1 to 7 working days are counted, else 0% with the more-than-7-days message |
| `RefundEstimator.BeforeStartTiers` | components/RefundEstimator.tsx:65-79 | on or before the start: 70% exactly when more than 30 working days of notice, else 50%; each of the three messages (more than 30, 1 to 30, on start) appears exactly for its notice band |
| `RefundEstimator.InvalidDateGetsOnStartTier` | components/RefundEstimator.tsx:44-78 | a NaN start or withdrawal date falls to the 50% on-start tier |
| `RefundEstimator.SaturdayAfterFridayStart` | components/RefundEstimator.tsx:46-63 | a Saturday withdrawal after a Friday start counts no day and gets 0% (the weekend collapse) |
| `RefundEstimator.WeekendBeforeMondayStart` | components/RefundEstimator.tsx:66-78 | a weekend withdrawal before a Monday start gets the 50% on-start tier |
| `RefundEstimator.WeekendGapAfterFridayStart` | components/RefundEstimator.tsx:44-64 | the exception to the monotone law: after a Friday start, Saturday gets 0% and the following Monday gets 30% |
| `RefundEstimator.NoDaysAfterOnlyOnNearWeekend` | components/RefundEstimator.tsx:46-58 | a withdrawal after the start with no working day counted is on a weekend, at most two days after the start |
| `RefundEstimator.LaterWithdrawalNeverGainsOnceCounting` | components/RefundEstimator.tsx:44-80 | once counting has begun, or while on or before the start, a later withdrawal never gets a larger percentage |
| `RefundEstimator.NoticeBeatsLateWithdrawal` | components/RefundEstimator.tsx:41-80 | any withdrawal on or before the start gets a larger percentage than any withdrawal after it |
| `RefundEstimator.StartDateGivesATier` | components/RefundEstimator.tsx:30-32 | with a start date entered the select-a-date message never appears |
| `RefundEstimator.LongNoticeExample` | components/RefundEstimator.tsx:65-72 | start 2025-10-30, withdrawal 2025-09-01: more than 30 working days of notice, 70% |
| `RefundEstimator.ThreeDaysAfterExample` | components/RefundEstimator.tsx:44-60 | start 2025-10-30, withdrawal 2025-11-04: 3 working days after the start, 30% |
| `RefundEstimator.ThirtyPercentExample` | components/RefundEstimator.tsx:44-60 | start 2025-10-30, withdrawal 2025-11-10: 7 working days after the start, 30% |
| `App.Patched` | App.tsx:40 | (no contract) `{ ...entry, ...patch }`: every field the patch sets replaces the entry's, the others are kept |
| `App.UpdateCourse` | App.tsx:39-41 | same length and order; entries with the id get the patched fields, all others are unchanged |
| `App.UpdateWithoutEffect` | App.tsx:39-41 | an empty patch, or an id no entry has, leaves the list unchanged |
| `App.AddCourse` | App.tsx:43-48 | exactly one entry appended: first catalog course, no optional fees, 1 instalment; earlier entries untouched |
| `App.AddCourseTotals` | App.tsx:43-48 | adding a course adds the first catalog course's base total and duration and no optional fees |
| `App.RemoveCourse` | App.tsx:50-52 | an entry remains exactly when it was there and has another id |
| `App.RemoveCourseKeepsOrder` | App.tsx:50-52 | removal distributes over concatenation, so the remaining entries keep their order |
| `App.RemoveCourseExactly` | App.tsx:50-52 | a list with no entry of that id is unchanged; a lone entry with the id is removed |
| `App.CourseBaseTotal` | App.tsx:59-60 | (no contract) the application fee for the student type plus the course, material, examination and administrative fees |
| `App.BaseTotalMatchesBreakdown` | App.tsx:59-60 | the base total equals the fee breakdown's total for the same course and student type |
| `App.SumLinesPick` | App.tsx:64-71 | the optional-fee sum is the same whichever selected id is taken first |
| `App.SumLinesAgree` | App.tsx:64-71 | selections with the same quantities on a set of ids give the same sum over it |
| `App.SumLinesNonNegative` | App.tsx:62-71 | with non-negative fee amounts the optional-fee total is non-negative |
| `App.RemovingFeeTakesOffItsLine` | App.tsx:62-71 | deleting a selected id takes exactly its line (amount × quantity, or 0) off the total |
| `App.IeltsOptionalFeesExample` | App.tsx:62-71 | IELTS with re-examination × 2 and deferment × 1 from the catalog's fee list: 900 in optional fees |
| `App.UnknownFeeIdIgnored` | App.tsx:64-66 | selecting an id the course does not list leaves the total unchanged |
| `App.ComputeCourseMisc` | App.tsx:62-71 | the `forEach` total is the order-free sum of the lines; the rows are the ids that resolve with a quantity above 0, each exactly once, with name, unit amount and quantity |
| `App.ComputeCourseDetail` | App.tsx:55-98 | nothing for an unknown course id; otherwise base total, optional-fee total, subtotal = base + optional, duration and the instalment plan for the course fee |
| `App.ScholarshipAmount` | App.tsx:107-109 | (no contract) a percentage scholarship takes `subtotal × value / 100`, an amount scholarship takes its value |
| `App.Totals` | App.tsx:105-129 | subtotal = course + optional fees; after scholarship = max(0, subtotal − discount) ≥ 0; GST = 9% of it; grand total = 109% of it; living costs = monthly cost × duration |
| `App.ComputeTotals` | App.tsx:54-130 | the memo's three sums are the left-to-right sums over the pathway, the totals are `Totals` of them, and the details are those of the entries whose course is known, in order |
| `App.PathwaySumsAdd` | App.tsx:101-103 | the three pathway sums add over concatenation |
| `App.UnknownCourseContributesNothing` | App.tsx:56-103 | an entry whose course id is not in the catalog changes no total, wherever it stands |
| `App.SameChargesSameSums` | App.tsx:101-103 | pathways with the same courses and selections entry by entry have the same sums |
| `App.ScheduleEditsKeepTotals` | App.tsx:101-116 | editing instalments, start date or id changes no total, living costs included |
| `App.FirstCatalogCourseFound` | App.tsx:56 | `find` on the first catalog course's id returns that course |
| `App.PercentageScholarship` | App.tsx:107-111 | a p% scholarship (0 ≤ p ≤ 100) leaves (100 − p)% of a non-negative subtotal |
| `App.ScholarshipCoveringSubtotal` | App.tsx:107-114 | a fixed scholarship at least the subtotal brings after-scholarship, GST and grand total to 0 |
| `App.TypeChangeClearsDiscount` | App.tsx:107-111 | after a scholarship type change the discount is 0 and nothing is taken off |
| `App.FifteenPercentExample` | App.tsx:105-114 | 10000 with 15% off: 1500 off, 8500 after, 765 GST, 9265 in all |
| `InstalmentCalculator.InstalmentAmount` | components/InstalmentCalculator.tsx:27 | 0 for a zero total or no instalments; otherwise amount × instalments = total |
| `InstalmentCalculator.InstalmentPlan` | components/InstalmentCalculator.tsx:29-39 | `instalments` rows (none if not positive), numbered 1..n, all with the same amount, row i due i months after the parsed start date |
| `InstalmentCalculator.SumOfEqualAmounts` | components/InstalmentCalculator.tsx:31-39 | n equal rows add up to n times the amount |
| `InstalmentCalculator.PlanSumsToTotal` | components/InstalmentCalculator.tsx:27-39 | with a non-zero total and at least one instalment the rows add up to the total |
| `InstalmentCalculator.AddMonths` | components/InstalmentCalculator.tsx:32-33 | (no contract) `setMonth(getMonth() + months)` on a local-midnight date: `MakeDay` of the same year and day with the month index moved; NaN stays NaN. Its properties are the three rows below |
| `InstalmentCalculator.AddNoMonths` | components/InstalmentCalculator.tsx:32-33 | moving a date by 0 months leaves it unchanged |
| `InstalmentCalculator.FirstInstalmentOnStartDate` | components/InstalmentCalculator.tsx:29-33 | the first row is due on the start date |
| `InstalmentCalculator.AddMonthsToCivil` | components/InstalmentCalculator.tsx:32-33 | `setMonth(getMonth() + i)` lands on the same day of the month i months on (month index carried into the year, an overflowing day rolling on) |
| `InstalmentCalculator.SameDayOfMonth` | components/InstalmentCalculator.tsx:29-33 | from a start day up to 28, row i + 1 is a valid date on the same day of the month, i months on |
| `InstalmentCalculator.TwoInstalmentExample` | components/InstalmentCalculator.tsx:27-39 | 9500 in 2 instalments from 2025-10-30: 4750 on 30 Oct and 4750 on 30 Nov |
| `InstalmentCalculator.ClampInstalments` | components/InstalmentCalculator.tsx:76 | the count is always 1 to 12; NaN, 0 and anything below 1 give 1, above 12 gives 12, a count in range is kept |
| `InstalmentCalculator.ClampKeepsTypedCount` | components/InstalmentCalculator.tsx:76 | typing 1 to 12 sets that count |
| `MiscellaneousFees.HandleFeeChange` | components/MiscellaneousFees.tsx:89-97 | ticking a flat fee stores 1; ticking a per-unit fee keeps a non-zero stored quantity or stores 1; unticking deletes the key; no other key changes; positive quantities stay positive |
| `MiscellaneousFees.HandleQuantityChange` | components/MiscellaneousFees.tsx:99-107 | a quantity above 0 is stored, any other deletes the key; no other key changes; positive quantities stay positive |
| `MiscellaneousFees.QuantityInput` | components/MiscellaneousFees.tsx:59 | the field's value is never 0: NaN gives 1 and any other non-zero number is kept |
| `MiscellaneousFees.QuantityInputOfDecimal` | components/MiscellaneousFees.tsx:59 | typing n gives n, and typing 0 gives 1 |
| `MiscellaneousFees.StandardFees` | components/MiscellaneousFees.tsx:84 | a fee is listed exactly when the course has it and its category is standard or absent |
| `MiscellaneousFees.ServiceFees` | components/MiscellaneousFees.tsx:85 | a fee is listed exactly when the course has it and its category is service |
| `MiscellaneousFees.FeeListsPartition` | components/MiscellaneousFees.tsx:82-87 | the two lists together hold every fee of the course exactly as often as it occurs |
| `MiscellaneousFees.FeeListSizes` | components/MiscellaneousFees.tsx:82-87 | the two lists together are as long as the course's list |
| `MiscellaneousFees.FeeListsKeepOrder` | components/MiscellaneousFees.tsx:82-87 | both lists distribute over concatenation, so each keeps the course's order |
| `ScholarshipCalculator.HandleTypeChange` | components/ScholarshipCalculator.tsx:15-17 | the new type is set and the value reset to 0 |
| `ScholarshipCalculator.ValueInput` | components/ScholarshipCalculator.tsx:20 | text that does not parse gives 0; a parsed number is kept |
| `ScholarshipCalculator.HandleValueChange` | components/ScholarshipCalculator.tsx:19-21 | the type is kept and the value is the parsed input |
| `ScholarshipCalculator.ValueInputReadsNumbers` | components/ScholarshipCalculator.tsx:20 | an empty field gives 0 and a typed whole number gives itself |
| `ScholarshipCalculator.InputSymbol` | components/ScholarshipCalculator.tsx:23 | the symbol is `S$` exactly for an amount and `%` exactly for a percentage |
| `FeeBreakdown.ApplicationFee` | components/FeeBreakdown.tsx:18 | (no contract) `application[studentType]` |
| `FeeBreakdown.TotalCourseFees` | components/FeeBreakdown.tsx:19 | (no contract) course + material + examination + administrative fees |
| `FeeBreakdown.TotalFees` | components/FeeBreakdown.tsx:20 | (no contract) the course fees plus the application fee |
| `FeeBreakdown.StudentTypeOnlyMovesApplicationFee` | components/FeeBreakdown.tsx:17-20 | the student type moves the total only through the application fee, and the course fees exclude it |
| `FeeBreakdown.AeisP2InternationalTotal` | data/courseData.ts:25-26 | AEIS Primary 2 for an international student: application 400, course fees 10250, total 10650 |
| `FeeBreakdown.IeltsLocalTotal` | data/courseData.ts:60-61 | IELTS for a local student: application 150, course fees 6810, total 6960 |
| `JsBuiltins.Split` | utils/dateUtils.ts:10 | `split` never returns an empty list, and joining the parts with the separator gives back the text |
| `JsBuiltins.ToNumber` | utils/dateUtils.ts:10 | empty text gives 0, and any other text that has a value is all digits. The definition gives a digit run its decimal value and anything else NaN |
| `JsBuiltins.ParseFloat` | components/ScholarshipCalculator.tsx:20 | a value read without a leading minus sign is non-negative. The definition skips leading white space, takes a sign, then digits with an optional fraction, and is NaN when no digit follows |
| `JsBuiltins.ParseInt` | components/InstalmentCalculator.tsx:76 | `parseInt` is NaN exactly when, after white space and a sign, no digit (or no hex digit after `0x`) follows |
| `JsBuiltins.ParseIntOfDecimal` | components/MiscellaneousFees.tsx:59 | `parseInt` reads back a decimal number followed by text that starts with neither a digit nor `x` |
| `JsBuiltins.ParseFloatOfDecimal` | components/ScholarshipCalculator.tsx:20 | `parseFloat` reads back a decimal whole number |
| `JsBuiltins.Find` | App.tsx:56 | `find` returns the first element passing the test, and undefined exactly when none does |
| `JsBuiltins.FilterMembers` | App.tsx:51 | `filter` keeps exactly the elements passing the test |
| `JsBuiltins.FilterDistributes` | App.tsx:51 | `filter` distributes over concatenation |
| `JsBuiltins.FilterPartition` | components/MiscellaneousFees.tsx:84-85 | two complementary filters split the elements between them, each as often as it occurs |

## Left out

- `formatCurrency` and `toLocaleDateString` are not modelled: they are `Intl` formatting. Instalment dates are day numbers rather than text.
- IEEE floating point is not modelled: money is exact `real`, so rounding drift in instalment sums or GST is absent.
- Time zones, daylight saving, `setHours` and wall-clock time are not modelled. A date is a calendar day. The source's "today" (`new Date().toISOString()`) and `Date.now()` ids are parameters (`today`, `newId`).
- `DateUtils.ParseDateAsLocal`: `Number` on a date field is modelled for the empty text and for runs of decimal digits only. Other text reads as NaN. White space, signs, fractions, exponents and hex in a date field are not modelled.
- `ECMAScript TimeClip` is not modelled: dates beyond ±8.64e15 ms, which are NaN in JavaScript, are valid day numbers here.
- `JsBuiltins.ParseFloat`: exponents, `Infinity` and signed zero are not modelled.
- `App.AddCourse` requires a non-empty catalog. The source reads `courseData[0].id`, which throws on an empty catalog, and its static catalog is never empty.
- `App.ComputeCourseMisc`: the order of the rows is left open, because `Object.entries` order is not modelled. The total does not depend on it.
- `App.ComputeTotals` states the entry behind each detail row. The other fields of each row are stated by `App.ComputeCourseDetail`.
- The refund estimator's `totalPayable` is a parameter. App.tsx:289 passes the pre-scholarship subtotal, and that wiring is not modelled.
- The instalment plan built inside the totals (App.tsx:76-85) is the same `InstalmentCalculator.InstalmentPlan` with the course fee as principal. It is not a separate definition.
- The course catalog (data/courseData.ts) is a parameter. Only the AEIS Primary 2 and IELTS records are constants, each with the full 17-entry `standardMiscFees` list; the other catalog records are not.
- The weekend collapse of the after-start count is kept as the source has it: a Saturday or Sunday withdrawal right after a Friday start gets 0%.
- Not modelled, because they hold no computation: ReportModal (PDF, clipboard, e-mail), the other presentational components, React state, memo dependencies and accordion flags.
