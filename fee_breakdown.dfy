/** components/FeeBreakdown.tsx: the fee table shown for one course. */
module FeeBreakdown {
  import opened Types
  import CourseData

  function ApplicationFee(course: Course, studentType: StudentType): real
  {
    course.fees.application.For(studentType)
  }

  /** The course's own fees, without the application fee. */
  function TotalCourseFees(course: Course): real
  {
    course.fees.course + course.fees.material + course.fees.examination + course.fees.administrative
  }

  function TotalFees(course: Course, studentType: StudentType): real
  {
    TotalCourseFees(course) + ApplicationFee(course, studentType)
  }

  /** The student type changes the total only through the application fee. */
  lemma StudentTypeOnlyMovesApplicationFee(course: Course)
    ensures TotalFees(course, International) - TotalFees(course, Local)
         == course.fees.application.international - course.fees.application.local
    ensures TotalCourseFees(course) == TotalFees(course, Local) - ApplicationFee(course, Local)
  {
  }

  /** AEIS Primary 2 for an international student: 400 + 9500 + 300 + 300 + 150. */
  lemma AeisP2InternationalTotal()
    ensures ApplicationFee(CourseData.AeisP2, International) == 400.0
    ensures TotalCourseFees(CourseData.AeisP2) == 10250.0
    ensures TotalFees(CourseData.AeisP2, International) == 10650.0
  {
  }

  /** IELTS for a local student: 150 + 6460 + 100 + 100 + 150. */
  lemma IeltsLocalTotal()
    ensures ApplicationFee(CourseData.Ielts, Local) == 150.0
    ensures TotalCourseFees(CourseData.Ielts) == 6810.0
    ensures TotalFees(CourseData.Ielts, Local) == 6960.0
  {
  }
}
