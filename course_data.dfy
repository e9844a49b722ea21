/** Records of data/courseData.ts, used as constants in example lemmas. */
module CourseData {
  import opened Wrappers
  import opened Types

  /** `standardMiscFees`: the optional charges every course in the catalog offers, in order. */
  const StandardMiscFees := [
    MiscFee("re-exam", "Re-Examination Fee (Per module)", 200.0, false, None, Some(Standard)),
    MiscFee("deferment", "Deferment Fee (Per module)", 500.0, false, None, Some(Standard)),
    MiscFee("re-module", "Re-Module Fee (Per module)", 700.0, false, None, Some(Standard)),
    MiscFee("course-change", "Course Change Fee", 300.0, false, None, Some(Standard)),
    MiscFee("graduation", "Graduation Ceremony Fee", 350.0, false, None, Some(Standard)),
    MiscFee("photocopy-a4-bw", "Photocopying A4 B&W (per page)", 0.1, true, None, Some(Standard)),
    MiscFee("photocopy-a4-color", "Photocopying A4 Color (per page)", 0.3, true, None, Some(Standard)),
    MiscFee("photocopy-a3-bw", "Photocopying A3 B&W (per page)", 0.2, true, None, Some(Standard)),
    MiscFee("photocopy-a3-color", "Photocopying A3 Color (per page)", 0.5, true, None, Some(Standard)),
    MiscFee("printing-a4-bw", "Printing A4 B&W (per page)", 1.0, true, None, Some(Standard)),
    MiscFee("printing-a4-color", "Printing A4 Color (per page)", 0.5, true, None, Some(Standard)),
    MiscFee("printing-a3-bw", "Printing A3 B&W (per page)", 2.0, true, None, Some(Standard)),
    MiscFee("printing-a3-color", "Printing A3 Color (per page)", 1.0, true, None, Some(Standard)),
    MiscFee("t-shirt", "UCC T-shirt", 20.0, true, None, Some(Service)),
    MiscFee("guardian", "Guardian Arrangement Admin Fee", 100.0, false, Some("Non-refundable"), Some(Service)),
    MiscFee("airport-pickup", "Airport Pick-up Service", 180.0, false, Some("Non-refundable"), Some(Service)),
    MiscFee("hpb-fee", "Health Promotion Board (HPB) Application Fee", 300.0, false, Some("Non-refundable"), Some(Service))
  ]

  const AeisP2 := Course(
    "aeis-p2", "Preparatory Course for AEIS - Primary 2", "AEISP2", 6, 2,
    CourseFee(ApplicationFees(150.0, 400.0), 9500.0, 300.0, 300.0, 150.0),
    StandardMiscFees)

  const Ielts := Course(
    "ielts", "Preparatory Course for IELTS", "IELTS", 6, 4,
    CourseFee(ApplicationFees(150.0, 400.0), 6460.0, 100.0, 100.0, 150.0),
    StandardMiscFees)
}
