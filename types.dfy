/** types.ts: the records the calculator works on. Money is exact (real); counts are whole numbers. */
module Types {
  import opened Wrappers

  datatype StudentType = Local | International

  /** The application fee, which depends on the student type. */
  datatype ApplicationFees = ApplicationFees(local: real, international: real)
  {
    /** `application[studentType]`. */
    function For(studentType: StudentType): real
    {
      match studentType
      case Local => local
      case International => international
    }
  }

  datatype CourseFee = CourseFee(
    application: ApplicationFees,
    course: real,
    material: real,
    examination: real,
    administrative: real)

  datatype FeeCategory = Standard | Service

  /** An optional charge; an absent `isPerUnit` flag is false. */
  datatype MiscFee = MiscFee(
    id: string,
    name: string,
    amount: real,
    isPerUnit: bool,
    notes: Option<string>,
    category: Option<FeeCategory>)

  datatype Course = Course(
    id: string,
    name: string,
    abbreviation: string,
    durationMonths: int,
    modules: int,
    fees: CourseFee,
    miscFees: seq<MiscFee>)

  /** Misc-fee id to quantity. The editing handlers keep every stored quantity above 0. */
  type MiscFeeSelection = map<string, int>

  datatype PathwayCourse = PathwayCourse(
    id: int,
    courseId: string,
    miscFees: MiscFeeSelection,
    instalments: int,
    startDate: string)

  datatype ScholarshipType = Amount | Percentage

  /** `type` in the source; `kind` here since `type` is a keyword. */
  datatype Scholarship = Scholarship(kind: ScholarshipType, value: real)

  datatype LivingCosts = LivingCosts(rent: real, food: real, transport: real, medical: real)
}
