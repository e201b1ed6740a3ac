/** The mock ministry and staff services: look-ups by id, the object
    literals that build created and updated records, the staff filters and
    the bulk-upload tally. The fixed mock lists these services hold are
    parameters here, and each `setTimeout` delay is left out. */
module MinistryService {
  import opened Wrappers
  import opened Text
  import opened Lists
  import opened Records

  // ---------------------------------------------------------------- objects

  /** A JavaScript value as these services store it in an object. */
  datatype JsValue = JNum(n: int) | JNaN | JStr(s: string) | JBool(b: bool) | JNull

  /** A plain object: its own properties. `{...a, ...b}` is `a + b`, the
      later object winning on a shared key. */
  type Object = map<string, JsValue>

  /** `parseInt(id)` as a value. */
  function NumberOf(v: Option<int>): JsValue {
    if v.Some? then JNum(v.value) else JNaN
  }

  /** `createMinistry(ministryData)`: a new id (the clock `now`), the data,
      and zero counts with today's creation date. */
  function CreateMinistry(data: Object, now: int, today: string): (r: Object)
    ensures r.Keys == data.Keys + {"id", "staffCount", "verifiedStaff", "createdAt"}
    ensures r["staffCount"] == JNum(0) && r["verifiedStaff"] == JNum(0) && r["createdAt"] == JStr(today)
    ensures r["id"] == if "id" in data then data["id"] else JNum(now)
    ensures forall k :: k in data && k != "staffCount" && k != "verifiedStaff" && k != "createdAt" ==> r[k] == data[k]
  {
    map["id" := JNum(now)] + data + map["staffCount" := JNum(0), "verifiedStaff" := JNum(0), "createdAt" := JStr(today)]
  }

  /** `updateMinistry(id, ministryData)`: the parsed id, the data, and
      today's update date. */
  function UpdateMinistry(id: string, data: Object, today: string): (r: Object)
    ensures r.Keys == data.Keys + {"id", "updatedAt"}
    ensures r["updatedAt"] == JStr(today)
    ensures r["id"] == if "id" in data then data["id"] else NumberOf(ParseInt(id))
    ensures forall k :: k in data && k != "updatedAt" ==> r[k] == data[k]
  {
    map["id" := NumberOf(ParseInt(id))] + data + map["updatedAt" := JStr(today)]
  }

  /** `createStaff(staffData)`: a new id, the data, and a member not yet
      invited with nothing uploaded. */
  function CreateStaff(data: Object, now: int, today: string): (r: Object)
    ensures r.Keys == data.Keys + {"id", "eKycStatus", "invitationSent", "documentsUploaded", "livenessCheck", "createdAt"}
    ensures r["eKycStatus"] == JStr("not_invited") && r["invitationSent"] == JBool(false)
    ensures r["documentsUploaded"] == JBool(false) && r["livenessCheck"] == JNull && r["createdAt"] == JStr(today)
    ensures r["id"] == if "id" in data then data["id"] else JNum(now)
    ensures forall k :: k in data && k !in StaffDefaults(today) ==> r[k] == data[k]
  {
    map["id" := JNum(now)] + data + StaffDefaults(today)
  }

  /** What `createStaff` writes over its input. */
  function StaffDefaults(today: string): Object {
    map["eKycStatus" := JStr("not_invited"), "invitationSent" := JBool(false),
        "documentsUploaded" := JBool(false), "livenessCheck" := JNull, "createdAt" := JStr(today)]
  }

  /** `updateStaff(id, staffData)` */
  function UpdateStaff(id: string, data: Object, today: string): (r: Object)
    ensures r.Keys == data.Keys + {"id", "updatedAt"}
    ensures r["updatedAt"] == JStr(today)
    ensures r["id"] == if "id" in data then data["id"] else NumberOf(ParseInt(id))
    ensures forall k :: k in data && k != "updatedAt" ==> r[k] == data[k]
  {
    map["id" := NumberOf(ParseInt(id))] + data + map["updatedAt" := JStr(today)]
  }

  /** Whatever counts and date the caller sends, a created ministry starts
      from zero: the result depends only on the other fields. */
  lemma CreateMinistryOverridesCounts(data: Object, other: Object, now: int, today: string)
    requires forall k :: k in data && k != "staffCount" && k != "verifiedStaff" && k != "createdAt" ==> k in other && other[k] == data[k]
    requires forall k :: k in other && k != "staffCount" && k != "verifiedStaff" && k != "createdAt" ==> k in data
    ensures CreateMinistry(data, now, today) == CreateMinistry(other, now, today)
  {
    var a := CreateMinistry(data, now, today);
    var b := CreateMinistry(other, now, today);
    assert a.Keys == b.Keys;
  }

  /** Likewise a created staff member's status, flags and date do not depend
      on what the caller sends for them. */
  lemma CreateStaffOverridesDefaults(data: Object, other: Object, now: int, today: string)
    requires forall k :: k in data && k !in StaffDefaults(today) ==> k in other && other[k] == data[k]
    requires forall k :: k in other && k !in StaffDefaults(today) ==> k in data
    ensures CreateStaff(data, now, today) == CreateStaff(other, now, today)
  {
    var a := CreateStaff(data, now, today);
    var b := CreateStaff(other, now, today);
    assert a.Keys == b.Keys;
  }

  /** The id an update returns is the parsed argument only when the payload
      has no `id` of its own; a number written in digits parses to itself. */
  lemma UpdateId(n: int, data: Object, today: string)
    ensures "id" !in data ==> UpdateMinistry(IntToString(n), data, today)["id"] == JNum(n)
    ensures "id" !in data ==> UpdateStaff(IntToString(n), data, today)["id"] == JNum(n)
    ensures "id" in data ==> UpdateMinistry(IntToString(n), data, today)["id"] == data["id"]
  {
    ParseIntToString(n);
  }

  // ---------------------------------------------------------------- look-ups

  /** `m.id === parseInt(id)`: never true for a `NaN` id. */
  predicate IdIs(recordId: int, id: string) {
    ParseInt(id) == Some(recordId)
  }

  /** `getMinistryById(id)` over the ministry list. */
  function GetMinistryById(ministries: seq<Ministry>, id: string): Option<Ministry> {
    Find(ministries, (m: Ministry) => IdIs(m.id, id))
  }

  /** The first ministry with the parsed id, and none for an id that does
      not parse or that nobody has. */
  lemma GetMinistryByIdFirst(ministries: seq<Ministry>, id: string, i: nat)
    ensures i < |ministries| && IdIs(ministries[i].id, id) && (forall j :: 0 <= j < i ==> !IdIs(ministries[j].id, id)) ==>
      GetMinistryById(ministries, id) == Some(ministries[i])
    ensures ParseInt(id).None? ==> GetMinistryById(ministries, id) == None
    ensures GetMinistryById(ministries, id).Some? ==> ParseInt(id) == Some(GetMinistryById(ministries, id).value.id)
  {
    if i < |ministries| && IdIs(ministries[i].id, id) && (forall j :: 0 <= j < i ==> !IdIs(ministries[j].id, id)) {
      FindFirst(ministries, (m: Ministry) => IdIs(m.id, id), i);
    }
  }

  // ---------------------------------------------------------------- staff

  /** The `filters` argument of `getAllStaff`. A text filter that is absent
      or empty is `""`; an absent page or limit is `0`, which is falsy like
      it. */
  datatype StaffFilters = StaffFilters(ministryId: string, status: string, search: string, page: int, limit: int)

  const NoStaffFilters := StaffFilters("", "", "", 0, 0)

  datatype StaffPage = StaffPage(results: seq<Staff>, total: nat, page: int, limit: int)

  /** The service's search: the term in lower case against the lower-cased
      names, payroll number and e-mail, and against the national ID as it
      is. The job title is not searched. */
  predicate ServiceSearch(s: Staff, term: string) {
    var t := ToLower(term);
    Contains(ToLower(s.firstName), t) ||
    Contains(ToLower(s.lastName), t) ||
    Contains(s.nationalId, t) ||
    Contains(ToLower(s.payrollNumber), t) ||
    Contains(ToLower(s.email), t)
  }

  /** What a member must meet to be returned: each filter that is set. */
  predicate ServiceSelected(f: StaffFilters, s: Staff) {
    (f.ministryId == "" || IdIs(s.ministryId, f.ministryId)) &&
    (f.status == "" || s.eKycStatus == f.status) &&
    (f.search == "" || ServiceSearch(s, f.search))
  }

  function MinistryTest(id: string): Staff -> bool {
    (s: Staff) => id == "" || IdIs(s.ministryId, id)
  }

  function StatusTest(status: string): Staff -> bool {
    (s: Staff) => status == "" || s.eKycStatus == status
  }

  function SearchTest(term: string): Staff -> bool {
    (s: Staff) => term == "" || ServiceSearch(s, term)
  }

  /** The three filters of `getAllStaff`, each applied only when set, one
      after the other. */
  function FilterStaff(staff: seq<Staff>, f: StaffFilters): seq<Staff> {
    var a := if f.ministryId != "" then Keep(staff, MinistryTest(f.ministryId)) else staff;
    var b := if f.status != "" then Keep(a, StatusTest(f.status)) else a;
    if f.search != "" then Keep(b, SearchTest(f.search)) else b
  }

  /** `getAllStaff(filters)`: everything that passes, unpaginated, with the
      page and limit echoed back or their defaults 1 and 20. */
  function GetAllStaff(staff: seq<Staff>, f: StaffFilters): (r: StaffPage)
    ensures r.total == |r.results|
    ensures r.page == (if f.page != 0 then f.page else 1)
    ensures r.limit == (if f.limit != 0 then f.limit else 20)
  {
    var results := FilterStaff(staff, f);
    StaffPage(results, |results|, if f.page != 0 then f.page else 1, if f.limit != 0 then f.limit else 20)
  }

  /** The three filters in a row keep, in order, exactly the members that
      meet every filter that is set: one filter over the whole list. */
  lemma GetAllStaffSelects(staff: seq<Staff>, f: StaffFilters)
    ensures GetAllStaff(staff, f).results == Keep(staff, (s: Staff) => ServiceSelected(f, s))
  {
    var pm := MinistryTest(f.ministryId);
    var ps := StatusTest(f.status);
    var pt := SearchTest(f.search);
    var a := Keep(staff, pm);
    var b := Keep(a, ps);
    if f.ministryId == "" {
      KeepAllOrNone(staff, pm);
    }
    if f.status == "" {
      KeepAllOrNone(a, ps);
    }
    if f.search == "" {
      KeepAllOrNone(b, pt);
    }
    assert FilterStaff(staff, f) == Keep(b, pt);
    KeepKeep(staff, pm, ps);
    KeepKeep(staff, Both(pm, ps), pt);
    var all := Both(Both(pm, ps), pt);
    forall i | 0 <= i < |staff| ensures all(staff[i]) == ServiceSelected(f, staff[i]) {
      SelectedIsEveryTest(f, staff[i]);
    }
    KeepAgree(staff, all, (s: Staff) => ServiceSelected(f, s));
  }

  lemma SelectedIsEveryTest(f: StaffFilters, s: Staff)
    ensures Both(Both(MinistryTest(f.ministryId), StatusTest(f.status)), SearchTest(f.search))(s) == ServiceSelected(f, s)
  {
  }

  /** Called with no filters the service returns the whole list. */
  lemma NoFiltersReturnAll(staff: seq<Staff>)
    ensures GetAllStaff(staff, NoStaffFilters) == StaffPage(staff, |staff|, 1, 20)
  {
  }

  /** `getStaffById(id)`: a look-up in the unfiltered list. */
  function GetStaffById(staff: seq<Staff>, id: string): Option<Staff> {
    Find(GetAllStaff(staff, NoStaffFilters).results, (s: Staff) => IdIs(s.id, id))
  }

  /** The first member with the parsed id, and none for an id that does not
      parse or that nobody has. */
  lemma GetStaffByIdFirst(staff: seq<Staff>, id: string, i: nat)
    ensures i < |staff| && IdIs(staff[i].id, id) && (forall j :: 0 <= j < i ==> !IdIs(staff[j].id, id)) ==>
      GetStaffById(staff, id) == Some(staff[i])
    ensures ParseInt(id).None? ==> GetStaffById(staff, id) == None
    ensures GetStaffById(staff, id).Some? ==> ParseInt(id) == Some(GetStaffById(staff, id).value.id)
  {
    NoFiltersReturnAll(staff);
    if i < |staff| && IdIs(staff[i].id, id) && (forall j :: 0 <= j < i ==> !IdIs(staff[j].id, id)) {
      FindFirst(staff, (s: Staff) => IdIs(s.id, id), i);
    }
  }

  // ------------------------------------------------------------ bulk upload

  /** A record handed to `bulkUploadStaff`: its sheet row and, when the
      checks found anything, its list of messages. Any list, even an empty
      one, is truthy and so counts as failed. */
  datatype UploadRecord = UploadRecord(rowIndex: int, validationErrors: Option<seq<string>>)

  datatype RowErrors = RowErrors(row: int, errors: seq<string>)

  datatype BulkResult = BulkResult(successful: nat, failed: nat, total: nat, errors: seq<RowErrors>)

  function Failed(rs: seq<UploadRecord>): seq<UploadRecord> {
    Keep(rs, (r: UploadRecord) => r.validationErrors.Some?)
  }

  /** `bulkUploadStaff(staffArray, ministryId)`; the ministry is not used. */
  function BulkUploadStaff(rs: seq<UploadRecord>): (r: BulkResult)
    ensures r.total == |rs|
  {
    var failed := Failed(rs);
    BulkResult(
      Count(rs, (r: UploadRecord) => r.validationErrors.None?),
      |failed|,
      |rs|,
      seq(|failed|, i requires 0 <= i < |failed| => RowErrors(failed[i].rowIndex, failed[i].validationErrors.value)))
  }

  /** Every record is either successful or failed. */
  lemma {:induction false} SuccessPlusFailed(rs: seq<UploadRecord>)
    ensures Count(rs, (r: UploadRecord) => r.validationErrors.None?) + |Failed(rs)| == |rs|
  {
    if rs != [] {
      var n := |rs| - 1;
      SuccessPlusFailed(rs[..n]);
    }
  }

  /** The tally adds up, and the error list has one entry per failed record,
      in input order, carrying its row and its messages. */
  lemma BulkTally(rs: seq<UploadRecord>)
    ensures BulkUploadStaff(rs).successful + BulkUploadStaff(rs).failed == BulkUploadStaff(rs).total
    ensures |BulkUploadStaff(rs).errors| == BulkUploadStaff(rs).failed
    ensures forall i :: 0 <= i < |Failed(rs)| ==>
      BulkUploadStaff(rs).errors[i] == RowErrors(Failed(rs)[i].rowIndex, Failed(rs)[i].validationErrors.value)
    ensures forall i :: 0 <= i < |Failed(rs)| ==> Failed(rs)[i] in rs
    ensures forall i :: 0 <= i < |rs| && rs[i].validationErrors.Some? ==> rs[i] in Failed(rs)
  {
    SuccessPlusFailed(rs);
    KeepMembers(rs, (r: UploadRecord) => r.validationErrors.Some?);
  }
}
