/**
  App.tsx: the list of courses on the student's pathway, and the quotation totals computed
  over it: per-course base and optional-fee totals, their sums, the scholarship, 9% GST and
  living costs.
 */
module App {
  import opened Wrappers
  import opened JsBuiltins
  import opened Types
  import opened DateUtils
  import opened InstalmentCalculator
  import FeeBreakdown
  import ScholarshipCalculator
  import CourseData

  // ---------------------------------------------------------------------------------------
  // Editing the pathway

  /** A `Partial<PathwayCourse>`: the fields an edit sets. */
  datatype CoursePatch = CoursePatch(
    id: Option<int>,
    courseId: Option<string>,
    miscFees: Option<MiscFeeSelection>,
    instalments: Option<int>,
    startDate: Option<string>)

  function Override<T>(patch: Option<T>, current: T): T
  {
    match patch
    case Some(v) => v
    case None => current
  }

  /** `{ ...entry, ...patch }`: the patch's fields win, the others are kept. */
  function Patched(entry: PathwayCourse, patch: CoursePatch): PathwayCourse
  {
    PathwayCourse(
      Override(patch.id, entry.id),
      Override(patch.courseId, entry.courseId),
      Override(patch.miscFees, entry.miscFees),
      Override(patch.instalments, entry.instalments),
      Override(patch.startDate, entry.startDate))
  }

  /** handleUpdateCourse: every entry with the id is patched; the list keeps its length and order. */
  function UpdateCourse(pathway: seq<PathwayCourse>, id: int, patch: CoursePatch): (updated: seq<PathwayCourse>)
    ensures |updated| == |pathway|
    ensures forall i :: 0 <= i < |pathway| && pathway[i].id == id ==> updated[i] == Patched(pathway[i], patch)
    ensures forall i :: 0 <= i < |pathway| && pathway[i].id != id ==> updated[i] == pathway[i]
  {
    if pathway == [] then []
    else
      [if pathway[0].id == id then Patched(pathway[0], patch) else pathway[0]]
      + UpdateCourse(pathway[1..], id, patch)
  }

  /**
    handleAddCourse: one new entry at the end, for the first catalog course, with no optional
    fees, one instalment, and today's date (`newId` and `today` stand for `Date.now()` and
    the current date).
   */
  function AddCourse(pathway: seq<PathwayCourse>, catalog: seq<Course>, newId: int, today: string)
    : (updated: seq<PathwayCourse>)
    requires |catalog| > 0
    ensures |updated| == |pathway| + 1
    ensures updated[..|pathway|] == pathway
    ensures updated[|pathway|] == PathwayCourse(newId, catalog[0].id, map[], 1, today)
  {
    pathway + [PathwayCourse(newId, catalog[0].id, map[], 1, today)]
  }

  /** The test handleRemoveCourse filters by: the entry has another id. */
  function KeepsEntry(id: int): PathwayCourse -> bool
  {
    (entry: PathwayCourse) => entry.id != id
  }

  /** handleRemoveCourse: exactly the entries with other ids remain. */
  function RemoveCourse(pathway: seq<PathwayCourse>, id: int): (remaining: seq<PathwayCourse>)
    ensures |remaining| <= |pathway|
    ensures forall entry :: entry in remaining <==> entry in pathway && entry.id != id
  {
    FilterMembers(pathway, KeepsEntry(id));
    Filter(pathway, KeepsEntry(id))
  }

  /** Removal keeps the remaining entries in their order: it distributes over concatenation. */
  lemma RemoveCourseKeepsOrder(a: seq<PathwayCourse>, b: seq<PathwayCourse>, id: int)
    ensures RemoveCourse(a + b, id) == RemoveCourse(a, id) + RemoveCourse(b, id)
  {
    FilterDistributes(a, b, KeepsEntry(id));
  }

  /** A list with no entry of that id is left as it is; a lone entry with the id is removed. */
  lemma RemoveCourseExactly(pathway: seq<PathwayCourse>, entry: PathwayCourse, id: int)
    requires forall i :: 0 <= i < |pathway| ==> pathway[i].id != id
    ensures RemoveCourse(pathway, id) == pathway
    ensures entry.id == id ==> RemoveCourse([entry], id) == []
  {
    FilterKeepsAll(pathway, KeepsEntry(id));
  }

  /** An edit with no fields, or for an id no entry has, leaves the list as it is. */
  lemma UpdateWithoutEffect(pathway: seq<PathwayCourse>, id: int, patch: CoursePatch)
    requires patch == CoursePatch(None, None, None, None, None) || forall i :: 0 <= i < |pathway| ==> pathway[i].id != id
    ensures UpdateCourse(pathway, id, patch) == pathway
  {
  }

  // ---------------------------------------------------------------------------------------
  // One course's charges

  /** The base total: the application fee for the student type plus the four course fees. */
  function CourseBaseTotal(course: Course, studentType: StudentType): real
  {
    course.fees.application.For(studentType) + course.fees.course + course.fees.material
      + course.fees.examination + course.fees.administrative
  }

  /** The fee table shows the same total as the quotation uses. */
  lemma BaseTotalMatchesBreakdown(course: Course, studentType: StudentType)
    ensures CourseBaseTotal(course, studentType) == FeeBreakdown.TotalFees(course, studentType)
  {
  }

  /** `courseData.find(c => c.id === courseId)`. */
  function FindCourse(catalog: seq<Course>, courseId: string): Option<Course>
  {
    Find(catalog, (c: Course) => c.id == courseId)
  }

  /** `course.miscFees.find(mf => mf.id === feeId)`. */
  function FindMiscFee(course: Course, feeId: string): Option<MiscFee>
  {
    Find(course.miscFees, (f: MiscFee) => f.id == feeId)
  }

  /** A selected id counts when the course lists it and its quantity is above 0. */
  predicate Resolves(course: Course, selection: MiscFeeSelection, feeId: string)
  {
    feeId in selection && FindMiscFee(course, feeId).Some? && selection[feeId] > 0
  }

  /** What one selected id adds: unit amount times quantity, or nothing when it does not count. */
  function LineAmount(course: Course, selection: MiscFeeSelection, feeId: string): real
    requires feeId in selection
  {
    if Resolves(course, selection, feeId) then FindMiscFee(course, feeId).value.amount * selection[feeId] as real
    else 0.0
  }

  /** The lines of a set of selected ids, added up in any order. */
  ghost function SumLines(course: Course, selection: MiscFeeSelection, feeIds: set<string>): real
    requires feeIds <= selection.Keys
    decreases feeIds
  {
    if feeIds == {} then 0.0
    else
      var feeId :| feeId in feeIds;
      LineAmount(course, selection, feeId) + SumLines(course, selection, feeIds - {feeId})
  }

  /** The optional-fee total of a course: every selected line, in whatever order. */
  ghost function CourseMiscTotal(course: Course, selection: MiscFeeSelection): real
  {
    SumLines(course, selection, selection.Keys)
  }

  /** Any line can be taken out first: the sum does not depend on the order of the ids. */
  lemma {:induction false} SumLinesPick(course: Course, selection: MiscFeeSelection, feeIds: set<string>, feeId: string)
    requires feeIds <= selection.Keys && feeId in feeIds
    ensures SumLines(course, selection, feeIds)
         == LineAmount(course, selection, feeId) + SumLines(course, selection, feeIds - {feeId})
    decreases feeIds
  {
    var first :| first in feeIds && SumLines(course, selection, feeIds)
      == LineAmount(course, selection, first) + SumLines(course, selection, feeIds - {first});
    if first != feeId {
      SumLinesPick(course, selection, feeIds - {first}, feeId);
      SumLinesPick(course, selection, feeIds - {feeId}, first);
      assert feeIds - {first} - {feeId} == feeIds - {feeId} - {first};
    }
  }

  /** Two selections that agree on a set of ids give the same lines for it. */
  lemma {:induction false} SumLinesAgree(course: Course, s1: MiscFeeSelection, s2: MiscFeeSelection, feeIds: set<string>)
    requires feeIds <= s1.Keys && feeIds <= s2.Keys
    requires forall feeId :: feeId in feeIds ==> s1[feeId] == s2[feeId]
    ensures SumLines(course, s1, feeIds) == SumLines(course, s2, feeIds)
    decreases feeIds
  {
    if feeIds != {} {
      var feeId :| feeId in feeIds;
      SumLinesPick(course, s1, feeIds, feeId);
      SumLinesPick(course, s2, feeIds, feeId);
      SumLinesAgree(course, s1, s2, feeIds - {feeId});
      LineAgrees(course, s1, s2, feeId);
    }
  }

  lemma LineAgrees(course: Course, s1: MiscFeeSelection, s2: MiscFeeSelection, feeId: string)
    requires feeId in s1 && feeId in s2 && s1[feeId] == s2[feeId]
    ensures LineAmount(course, s1, feeId) == LineAmount(course, s2, feeId)
  {
  }

  /** With every listed fee amount non-negative, the optional-fee total is non-negative. */
  lemma {:induction false} SumLinesNonNegative(course: Course, selection: MiscFeeSelection, feeIds: set<string>)
    requires feeIds <= selection.Keys
    requires forall i :: 0 <= i < |course.miscFees| ==> course.miscFees[i].amount >= 0.0
    ensures SumLines(course, selection, feeIds) >= 0.0
    decreases feeIds
  {
    if feeIds != {} {
      var feeId :| feeId in feeIds;
      SumLinesPick(course, selection, feeIds, feeId);
      SumLinesNonNegative(course, selection, feeIds - {feeId});
      if Resolves(course, selection, feeId) {
        var fee := FindMiscFee(course, feeId).value;
        assert fee in course.miscFees;
      }
    }
  }

  /** Deleting a selected id (unticking it) takes exactly its line off the total. */
  lemma RemovingFeeTakesOffItsLine(course: Course, selection: MiscFeeSelection, feeId: string)
    requires feeId in selection
    ensures CourseMiscTotal(course, selection - {feeId})
         == CourseMiscTotal(course, selection) - LineAmount(course, selection, feeId)
  {
    SumLinesPick(course, selection, selection.Keys, feeId);
    assert (selection - {feeId}).Keys == selection.Keys - {feeId};
    SumLinesAgree(course, selection, selection - {feeId}, selection.Keys - {feeId});
  }

  /** Selecting an id the course does not list changes nothing. */
  lemma UnknownFeeIdIgnored(course: Course, selection: MiscFeeSelection, feeId: string, quantity: int)
    requires feeId !in selection && FindMiscFee(course, feeId).None?
    ensures CourseMiscTotal(course, selection[feeId := quantity]) == CourseMiscTotal(course, selection)
  {
    var extended := selection[feeId := quantity];
    SumLinesPick(course, extended, extended.Keys, feeId);
    assert extended.Keys - {feeId} == selection.Keys;
    SumLinesAgree(course, extended, selection, selection.Keys);
  }

  /** IELTS with two re-examinations and one deferment: 2 × 200 + 500 in optional fees. */
  lemma IeltsOptionalFeesExample()
    ensures CourseMiscTotal(CourseData.Ielts, map["re-exam" := 2, "deferment" := 1]) == 900.0
  {
    var course := CourseData.Ielts;
    var selection := map["re-exam" := 2, "deferment" := 1];
    IeltsExampleLines(selection);
    SumLinesPick(course, selection, selection.Keys, "re-exam");
    assert selection.Keys - {"re-exam"} == {"deferment"};
    SumLinesPick(course, selection, {"deferment"}, "deferment");
    assert {"deferment"} - {"deferment"} == {};
  }

  lemma IeltsExampleLines(selection: MiscFeeSelection)
    requires selection == map["re-exam" := 2, "deferment" := 1]
    ensures LineAmount(CourseData.Ielts, selection, "re-exam") == 400.0
    ensures LineAmount(CourseData.Ielts, selection, "deferment") == 500.0
  {
    FirstCatalogFees();
  }

  lemma FirstCatalogFees()
    ensures FindMiscFee(CourseData.Ielts, "re-exam") == Some(CourseData.StandardMiscFees[0])
    ensures FindMiscFee(CourseData.Ielts, "deferment") == Some(CourseData.StandardMiscFees[1])
  {
    var fees := CourseData.StandardMiscFees;
    assert fees[0].id == "re-exam" && fees[1].id == "deferment";
    assert |fees[0].id| != |"deferment"|;
  }

  /** A row of the optional fees chosen for a course, as the report lists it. */
  datatype SelectedMiscFee = SelectedMiscFee(name: string, amount: real, quantity: int)

  function SelectedLine(course: Course, selection: MiscFeeSelection, feeId: string): SelectedMiscFee
    requires Resolves(course, selection, feeId)
  {
    var fee := FindMiscFee(course, feeId).value;
    SelectedMiscFee(fee.name, fee.amount, selection[feeId])
  }

  /**
    The `forEach` over the selection's entries, in an order the model leaves open: the
    total is the sum of the lines, and the rows are the ids that count, each once.
    `order` names the id behind each row.
   */
  method ComputeCourseMisc(course: Course, selection: MiscFeeSelection)
    returns (courseMiscTotal: real, selectedMiscFees: seq<SelectedMiscFee>, ghost order: seq<string>)
    ensures courseMiscTotal == CourseMiscTotal(course, selection)
    ensures |order| == |selectedMiscFees|
    ensures forall i :: 0 <= i < |order| ==>
      Resolves(course, selection, order[i]) && selectedMiscFees[i] == SelectedLine(course, selection, order[i])
    ensures forall feeId :: Resolves(course, selection, feeId) ==> feeId in order
    ensures forall i, j :: 0 <= i < j < |order| ==> order[i] != order[j]
  {
    courseMiscTotal := 0.0;
    selectedMiscFees := [];
    order := [];
    var remaining := selection.Keys;
    ghost var visited: set<string> := {};
    while remaining != {}
      invariant remaining <= selection.Keys && visited == selection.Keys - remaining
      invariant courseMiscTotal == SumLines(course, selection, visited)
      invariant |order| == |selectedMiscFees|
      invariant forall i :: 0 <= i < |order| ==>
        order[i] in visited && Resolves(course, selection, order[i]) && selectedMiscFees[i] == SelectedLine(course, selection, order[i])
      invariant forall feeId :: feeId in visited && Resolves(course, selection, feeId) ==> feeId in order
      invariant forall i, j :: 0 <= i < j < |order| ==> order[i] != order[j]
      decreases remaining
    {
      var feeId :| feeId in remaining;
      var quantity := selection[feeId];
      var miscfee := FindMiscFee(course, feeId);
      if miscfee.Some? && quantity > 0 {
        var amount := miscfee.value.amount * quantity as real;
        courseMiscTotal := courseMiscTotal + amount;
        selectedMiscFees := selectedMiscFees + [SelectedMiscFee(miscfee.value.name, miscfee.value.amount, quantity)];
        order := order + [feeId];
      }
      SumLinesPick(course, selection, visited + {feeId}, feeId);
      assert visited + {feeId} - {feeId} == visited;
      remaining := remaining - {feeId};
      visited := visited + {feeId};
    }
    assert visited == selection.Keys;
  }

  /** What the quotation keeps for one pathway entry whose course is in the catalog. */
  datatype CourseDetail = CourseDetail(
    entry: PathwayCourse,
    courseName: string,
    courseAbbreviation: string,
    courseBaseTotal: real,
    courseMiscTotal: real,
    courseSubtotal: real,
    durationMonths: int,
    course: Course,
    selectedMiscFees: seq<SelectedMiscFee>,
    instalmentPlan: seq<Instalment>)

  /**
    One entry of the `pathwayCourses.map`: nothing for an unknown course id; otherwise the
    course's base total, optional-fee total, their sum, its duration and its instalment plan
    for the course fee (dates as day numbers; the source formats them as text).
   */
  method ComputeCourseDetail(entry: PathwayCourse, catalog: seq<Course>, studentType: StudentType)
    returns (detail: Option<CourseDetail>)
    ensures detail.None? <==> FindCourse(catalog, entry.courseId).None?
    ensures detail.Some? ==>
      var course := FindCourse(catalog, entry.courseId).value;
      detail.value.entry == entry && detail.value.course == course
      && detail.value.courseName == course.name && detail.value.courseAbbreviation == course.abbreviation
      && detail.value.courseBaseTotal == CourseBaseTotal(course, studentType)
      && detail.value.courseMiscTotal == CourseMiscTotal(course, entry.miscFees)
      && detail.value.courseSubtotal == detail.value.courseBaseTotal + detail.value.courseMiscTotal
      && detail.value.durationMonths == course.durationMonths
      && detail.value.instalmentPlan == InstalmentPlan(course.fees.course, entry.startDate, entry.instalments)
  {
    var found := FindCourse(catalog, entry.courseId);
    if found.None? {
      return None;
    }
    var course := found.value;
    var applicationFee := course.fees.application.For(studentType);
    var courseBaseTotal := applicationFee + course.fees.course + course.fees.material
      + course.fees.examination + course.fees.administrative;
    var courseMiscTotal, selectedMiscFees, _ := ComputeCourseMisc(course, entry.miscFees);
    var courseSubtotal := courseBaseTotal + courseMiscTotal;
    var instalmentPlan := InstalmentPlan(course.fees.course, entry.startDate, entry.instalments);
    detail := Some(CourseDetail(entry, course.name, course.abbreviation, courseBaseTotal, courseMiscTotal,
      courseSubtotal, course.durationMonths, course, selectedMiscFees, instalmentPlan));
  }

  // ---------------------------------------------------------------------------------------
  // Pathway totals

  /** An entry's base total, or nothing when its course id is not in the catalog. */
  function EntryBaseTotal(entry: PathwayCourse, catalog: seq<Course>, studentType: StudentType): real
  {
    match FindCourse(catalog, entry.courseId)
    case Some(course) => CourseBaseTotal(course, studentType)
    case None => 0.0
  }

  ghost function EntryMiscTotal(entry: PathwayCourse, catalog: seq<Course>): real
  {
    match FindCourse(catalog, entry.courseId)
    case Some(course) => CourseMiscTotal(course, entry.miscFees)
    case None => 0.0
  }

  function EntryDuration(entry: PathwayCourse, catalog: seq<Course>): int
  {
    match FindCourse(catalog, entry.courseId)
    case Some(course) => course.durationMonths
    case None => 0
  }

  /** `reduce` of the base totals, left to right from 0. */
  function PathwayCourseFees(pathway: seq<PathwayCourse>, catalog: seq<Course>, studentType: StudentType): real
  {
    if pathway == [] then 0.0
    else PathwayCourseFees(pathway[..|pathway| - 1], catalog, studentType) + EntryBaseTotal(pathway[|pathway| - 1], catalog, studentType)
  }

  ghost function PathwayMiscFees(pathway: seq<PathwayCourse>, catalog: seq<Course>): real
  {
    if pathway == [] then 0.0
    else PathwayMiscFees(pathway[..|pathway| - 1], catalog) + EntryMiscTotal(pathway[|pathway| - 1], catalog)
  }

  function PathwayDuration(pathway: seq<PathwayCourse>, catalog: seq<Course>): int
  {
    if pathway == [] then 0
    else PathwayDuration(pathway[..|pathway| - 1], catalog) + EntryDuration(pathway[|pathway| - 1], catalog)
  }

  /** The entries whose course id is in the catalog, in order: those the quotation lists. */
  function ResolvedEntries(pathway: seq<PathwayCourse>, catalog: seq<Course>): seq<PathwayCourse>
  {
    if pathway == [] then []
    else
      ResolvedEntries(pathway[..|pathway| - 1], catalog)
      + (if FindCourse(catalog, pathway[|pathway| - 1].courseId).Some? then [pathway[|pathway| - 1]] else [])
  }

  datatype GrandTotals = GrandTotals(
    totalCourseFees: real,
    totalMiscFees: real,
    subtotal: real,
    scholarshipAmount: real,
    subtotalAfterScholarship: real,
    gstAmount: real,
    grandTotal: real,
    totalLivingCosts: real,
    totalDuration: int)

  /** The discount: a percentage of the subtotal, or a fixed amount. */
  function ScholarshipAmount(scholarship: Scholarship, subtotal: real): real
  {
    match scholarship.kind
    case Percentage => subtotal * (scholarship.value / 100.0)
    case Amount => scholarship.value
  }

  function MonthlyLivingCost(livingCosts: LivingCosts): real
  {
    livingCosts.rent + livingCosts.food + livingCosts.transport + livingCosts.medical
  }

  /**
    The quotation from the three pathway sums: the subtotal, less the scholarship but never
    below 0, plus 9% GST; living costs for every month of the pathway.
   */
  function Totals(totalCourseFees: real, totalMiscFees: real, totalDuration: int, scholarship: Scholarship,
                  livingCosts: LivingCosts): (totals: GrandTotals)
    ensures totals.totalCourseFees == totalCourseFees && totals.totalMiscFees == totalMiscFees
    ensures totals.subtotal == totalCourseFees + totalMiscFees
    ensures totals.scholarshipAmount == ScholarshipAmount(scholarship, totals.subtotal)
    ensures totals.subtotalAfterScholarship >= 0.0
    ensures totals.subtotalAfterScholarship >= totals.subtotal - totals.scholarshipAmount
    ensures totals.subtotalAfterScholarship == 0.0
         || totals.subtotalAfterScholarship == totals.subtotal - totals.scholarshipAmount
    ensures totals.gstAmount * 100.0 == totals.subtotalAfterScholarship * 9.0
    ensures totals.grandTotal * 100.0 == totals.subtotalAfterScholarship * 109.0
    ensures totals.totalLivingCosts == MonthlyLivingCost(livingCosts) * totalDuration as real
    ensures totals.totalDuration == totalDuration
  {
    var subtotal := totalCourseFees + totalMiscFees;
    var scholarshipAmount := ScholarshipAmount(scholarship, subtotal);
    var subtotalAfterScholarship := if 0.0 < subtotal - scholarshipAmount then subtotal - scholarshipAmount else 0.0;
    var gstAmount := subtotalAfterScholarship * 0.09;
    var grandTotal := subtotalAfterScholarship + gstAmount;
    var totalLivingCosts := MonthlyLivingCost(livingCosts) * totalDuration as real;
    GrandTotals(totalCourseFees, totalMiscFees, subtotal, scholarshipAmount, subtotalAfterScholarship,
      gstAmount, grandTotal, totalLivingCosts, totalDuration)
  }

  /** The quotation for a whole pathway. */
  ghost function GrandTotalsOf(pathway: seq<PathwayCourse>, catalog: seq<Course>, studentType: StudentType,
                               scholarship: Scholarship, livingCosts: LivingCosts): GrandTotals
  {
    Totals(PathwayCourseFees(pathway, catalog, studentType), PathwayMiscFees(pathway, catalog),
      PathwayDuration(pathway, catalog), scholarship, livingCosts)
  }

  /**
    The `totals` memo: the details of the entries whose course is known, in pathway order,
    and the quotation over them.
   */
  method ComputeTotals(pathway: seq<PathwayCourse>, catalog: seq<Course>, studentType: StudentType,
                       scholarship: Scholarship, livingCosts: LivingCosts)
    returns (pathwayDetails: seq<CourseDetail>, totals: GrandTotals)
    ensures totals == GrandTotalsOf(pathway, catalog, studentType, scholarship, livingCosts)
    ensures |pathwayDetails| == |ResolvedEntries(pathway, catalog)|
    ensures forall j :: 0 <= j < |pathwayDetails| ==> pathwayDetails[j].entry == ResolvedEntries(pathway, catalog)[j]
  {
    pathwayDetails := [];
    var totalCourseFees := 0.0;
    var totalMiscFees := 0.0;
    var totalDuration := 0;
    var i := 0;
    while i < |pathway|
      invariant 0 <= i <= |pathway|
      invariant totalCourseFees == PathwayCourseFees(pathway[..i], catalog, studentType)
      invariant totalMiscFees == PathwayMiscFees(pathway[..i], catalog)
      invariant totalDuration == PathwayDuration(pathway[..i], catalog)
      invariant |pathwayDetails| == |ResolvedEntries(pathway[..i], catalog)|
      invariant forall j :: 0 <= j < |pathwayDetails| ==> pathwayDetails[j].entry == ResolvedEntries(pathway[..i], catalog)[j]
    {
      assert pathway[..i + 1][..i] == pathway[..i];
      var detail := ComputeCourseDetail(pathway[i], catalog, studentType);
      if detail.Some? {
        pathwayDetails := pathwayDetails + [detail.value];
        totalCourseFees := totalCourseFees + detail.value.courseBaseTotal;
        totalMiscFees := totalMiscFees + detail.value.courseMiscTotal;
        totalDuration := totalDuration + detail.value.durationMonths;
      }
      i := i + 1;
    }
    assert pathway[..i] == pathway;
    totals := Totals(totalCourseFees, totalMiscFees, totalDuration, scholarship, livingCosts);
  }

  // ---------------------------------------------------------------------------------------
  // Properties of the totals

  /** The pathway sums add over concatenation. */
  lemma {:induction false} PathwaySumsAdd(a: seq<PathwayCourse>, b: seq<PathwayCourse>, catalog: seq<Course>, studentType: StudentType)
    ensures PathwayCourseFees(a + b, catalog, studentType) == PathwayCourseFees(a, catalog, studentType) + PathwayCourseFees(b, catalog, studentType)
    ensures PathwayMiscFees(a + b, catalog) == PathwayMiscFees(a, catalog) + PathwayMiscFees(b, catalog)
    ensures PathwayDuration(a + b, catalog) == PathwayDuration(a, catalog) + PathwayDuration(b, catalog)
    decreases |b|
  {
    if b == [] {
      assert a + b == a;
    } else {
      PathwaySumsAdd(a, b[..|b| - 1], catalog, studentType);
      assert (a + b)[..|a + b| - 1] == a + b[..|b| - 1];
    }
  }

  /** An entry whose course id is not in the catalog changes no total, wherever it stands. */
  lemma UnknownCourseContributesNothing(a: seq<PathwayCourse>, entry: PathwayCourse, b: seq<PathwayCourse>,
                                        catalog: seq<Course>, studentType: StudentType,
                                        scholarship: Scholarship, livingCosts: LivingCosts)
    requires FindCourse(catalog, entry.courseId).None?
    ensures GrandTotalsOf(a + [entry] + b, catalog, studentType, scholarship, livingCosts)
         == GrandTotalsOf(a + b, catalog, studentType, scholarship, livingCosts)
  {
    PathwaySumsAdd(a + [entry], b, catalog, studentType);
    PathwaySumsAdd(a, [entry], catalog, studentType);
    PathwaySumsAdd(a, b, catalog, studentType);
    assert [entry][..0] == [];
  }

  /** Two pathways with the same courses and optional fees, entry by entry, have the same sums. */
  lemma {:induction false} SameChargesSameSums(p: seq<PathwayCourse>, q: seq<PathwayCourse>, catalog: seq<Course>, studentType: StudentType)
    requires |p| == |q|
    requires forall i :: 0 <= i < |p| ==> p[i].courseId == q[i].courseId && p[i].miscFees == q[i].miscFees
    ensures PathwayCourseFees(p, catalog, studentType) == PathwayCourseFees(q, catalog, studentType)
    ensures PathwayMiscFees(p, catalog) == PathwayMiscFees(q, catalog)
    ensures PathwayDuration(p, catalog) == PathwayDuration(q, catalog)
    decreases |p|
  {
    if p != [] {
      SameChargesSameSums(p[..|p| - 1], q[..|q| - 1], catalog, studentType);
    }
  }

  /**
    Editing an entry's instalment count, start date or id changes no total: in particular
    living costs do not depend on instalments.
   */
  lemma ScheduleEditsKeepTotals(pathway: seq<PathwayCourse>, id: int, patch: CoursePatch, catalog: seq<Course>,
                                studentType: StudentType, scholarship: Scholarship, livingCosts: LivingCosts)
    requires patch.courseId.None? && patch.miscFees.None?
    ensures GrandTotalsOf(UpdateCourse(pathway, id, patch), catalog, studentType, scholarship, livingCosts)
         == GrandTotalsOf(pathway, catalog, studentType, scholarship, livingCosts)
  {
    SameChargesSameSums(UpdateCourse(pathway, id, patch), pathway, catalog, studentType);
  }

  /** The first catalog course is always found, as itself. */
  lemma FirstCatalogCourseFound(catalog: seq<Course>)
    requires |catalog| > 0
    ensures FindCourse(catalog, catalog[0].id) == Some(catalog[0])
  {
    var found := FindCourse(catalog, catalog[0].id);
    if found.Some? {
      var i :| 0 <= i < |catalog| && catalog[i] == found.value && catalog[i].id == catalog[0].id
        && forall j :: 0 <= j < i ==> catalog[j].id != catalog[0].id;
      assert i == 0;
    }
  }

  /**
    Adding a course adds the first catalog course's base total and duration, and no
    optional fees.
   */
  lemma AddCourseTotals(pathway: seq<PathwayCourse>, catalog: seq<Course>, newId: int, today: string, studentType: StudentType)
    requires |catalog| > 0
    ensures PathwayCourseFees(AddCourse(pathway, catalog, newId, today), catalog, studentType)
         == PathwayCourseFees(pathway, catalog, studentType) + CourseBaseTotal(catalog[0], studentType)
    ensures PathwayMiscFees(AddCourse(pathway, catalog, newId, today), catalog) == PathwayMiscFees(pathway, catalog)
    ensures PathwayDuration(AddCourse(pathway, catalog, newId, today), catalog)
         == PathwayDuration(pathway, catalog) + catalog[0].durationMonths
  {
    var updated := AddCourse(pathway, catalog, newId, today);
    FirstCatalogCourseFound(catalog);
    assert updated[..|updated| - 1] == pathway;
    assert CourseMiscTotal(catalog[0], map[]) == 0.0;
  }

  /** A percentage scholarship of at most 100% leaves that share of a non-negative subtotal. */
  lemma PercentageScholarship(totalCourseFees: real, totalMiscFees: real, totalDuration: int,
                              percentage: real, livingCosts: LivingCosts)
    requires 0.0 <= percentage <= 100.0 && totalCourseFees + totalMiscFees >= 0.0
    ensures var totals := Totals(totalCourseFees, totalMiscFees, totalDuration, Scholarship(Percentage, percentage), livingCosts);
      totals.subtotalAfterScholarship * 100.0 == totals.subtotal * (100.0 - percentage)
  {
  }

  /** A fixed scholarship at least the subtotal brings everything payable to 0. */
  lemma ScholarshipCoveringSubtotal(totalCourseFees: real, totalMiscFees: real, totalDuration: int,
                                    amount: real, livingCosts: LivingCosts)
    requires amount >= totalCourseFees + totalMiscFees
    ensures var totals := Totals(totalCourseFees, totalMiscFees, totalDuration, Scholarship(Amount, amount), livingCosts);
      totals.subtotalAfterScholarship == 0.0 && totals.gstAmount == 0.0 && totals.grandTotal == 0.0
  {
  }

  /** Switching the scholarship kind clears the discount until a value is typed. */
  lemma TypeChangeClearsDiscount(totalCourseFees: real, totalMiscFees: real, totalDuration: int,
                                 scholarship: Scholarship, kind: ScholarshipType, livingCosts: LivingCosts)
    requires totalCourseFees + totalMiscFees >= 0.0
    ensures var totals := Totals(totalCourseFees, totalMiscFees, totalDuration,
                                 ScholarshipCalculator.HandleTypeChange(scholarship, kind), livingCosts);
      totals.scholarshipAmount == 0.0 && totals.subtotalAfterScholarship == totals.subtotal
  {
  }

  /** A 10000 subtotal with 15% off: 1500 off, 8500 after, 765 GST, 9265 in all. */
  lemma FifteenPercentExample(livingCosts: LivingCosts)
    ensures var totals := Totals(10000.0, 0.0, 6, Scholarship(Percentage, 15.0), livingCosts);
      totals.scholarshipAmount == 1500.0 && totals.subtotalAfterScholarship == 8500.0
      && totals.gstAmount == 765.0 && totals.grandTotal == 9265.0
  {
  }
}
