/** The two kinds of record the console lists: ministries and their staff. */
module Records {

  /** A ministry or parastatal. `kind` is its `type` ("ministry",
      "parastatal", ...). */
  datatype Ministry = Ministry(
    id: int,
    name: string,
    code: string,
    kind: string,
    contactPerson: string,
    email: string,
    phone: string,
    address: string,
    description: string,
    staffCount: int,
    verifiedStaff: int,
    createdAt: string)

  /** A staff member. A `null` or missing text field (a date not yet set, no
      liveness result) is the empty string, and a missing flag is `false`. */
  datatype Staff = Staff(
    id: int,
    nationalId: string,
    payrollNumber: string,
    kraPin: string,
    nssfNumber: string,
    shifNumber: string,
    firstName: string,
    lastName: string,
    email: string,
    phone: string,
    jobTitle: string,
    department: string,
    ministryId: int,
    ministryName: string,
    eKycStatus: string,
    invitationSent: bool,
    invitationDate: string,
    verificationDate: string,
    documentsUploaded: bool,
    livenessCheck: string,
    duplicateEmployment: bool,
    duplicateMinistries: seq<string>,
    createdAt: string)
}
