/** The staff list screen: search and two drop-down filters over the staff
    of all ministries, twenty members a page, status counts, invitations and
    the CSV export. */
module StaffManagement {
  import opened Wrappers
  import opened Text
  import opened Lists
  import opened Records

  const PerPage := 20

  // -------------------------------------------------------------- filtering

  /** The search box: a case-insensitive match on the names, payroll number,
      e-mail and job title, and a case-sensitive one on the national ID. */
  predicate MatchesSearch(m: Staff, term: string) {
    ContainsIgnoringCase(m.firstName, term) ||
    ContainsIgnoringCase(m.lastName, term) ||
    Contains(m.nationalId, term) ||
    ContainsIgnoringCase(m.payrollNumber, term) ||
    ContainsIgnoringCase(m.email, term) ||
    ContainsIgnoringCase(m.jobTitle, term)
  }

  /** The ministry drop-down holds the ministry id as text. */
  predicate MatchesMinistry(m: Staff, ministry: string) {
    ministry == "" || IntToString(m.ministryId) == ministry
  }

  predicate MatchesStatus(m: Staff, status: string) {
    status == "" || m.eKycStatus == status
  }

  predicate Listed(m: Staff, term: string, ministry: string, status: string) {
    MatchesSearch(m, term) && MatchesMinistry(m, ministry) && MatchesStatus(m, status)
  }

  /** `filteredStaff` */
  function Filtered(staff: seq<Staff>, term: string, ministry: string, status: string): seq<Staff> {
    Keep(staff, m => Listed(m, term, ministry, status))
  }

  /** A member is listed exactly when the search, the ministry and the status
      all match, and the list keeps the order of the staff list. */
  lemma FilteredExactly(staff: seq<Staff>, term: string, ministry: string, status: string, a: seq<Staff>, b: seq<Staff>)
    ensures forall i :: 0 <= i < |staff| ==>
      (staff[i] in Filtered(staff, term, ministry, status) <==> Listed(staff[i], term, ministry, status))
    ensures Filtered(a + b, term, ministry, status) == Filtered(a, term, ministry, status) + Filtered(b, term, ministry, status)
  {
    var f := Filtered(staff, term, ministry, status);
    KeepMembers(staff, m => Listed(m, term, ministry, status));
    forall i | 0 <= i < |staff| && staff[i] in f
      ensures Listed(staff[i], term, ministry, status)
    {
      var j :| 0 <= j < |f| && f[j] == staff[i];
    }
    KeepAppend(a, b, m => Listed(m, term, ministry, status));
  }

  /** With an empty search box and no filter chosen every member is listed. */
  lemma NoFilterListsAll(staff: seq<Staff>)
    ensures Filtered(staff, "", "", "") == staff
  {
    forall i | 0 <= i < |staff| ensures Listed(staff[i], "", "", "") {
      assert ToLower("") == "";
      assert StartsWith(ToLower(staff[i].firstName), "");
    }
    KeepAllOrNone(staff, m => Listed(m, "", "", ""));
  }

  /** Choosing ministry `k` in the drop-down keeps exactly the members of
      ministry `k`. */
  lemma MinistryFilterExact(m: Staff, k: int)
    ensures MatchesMinistry(m, IntToString(k)) <==> m.ministryId == k
  {
    ParseIntToString(k);
    ParseIntToString(m.ministryId);
  }

  lemma ToLowerIdempotent(s: string)
    ensures ToLower(ToLower(s)) == ToLower(s)
  {
  }

  /** Upper and lower case in the search term make no difference, except
      through the national ID, which is compared as typed. */
  lemma SearchCaseOnlyMattersForNationalId(m: Staff, term: string)
    requires Contains(m.nationalId, term) == Contains(m.nationalId, ToLower(term))
    ensures MatchesSearch(m, term) <==> MatchesSearch(m, ToLower(term))
  {
    ToLowerIdempotent(term);
  }

  // ------------------------------------------------------------- pagination

  /** `Math.ceil(filteredStaff.length / itemsPerPage)` */
  function TotalPages(n: nat): int {
    CeilDiv(n, PerPage)
  }

  /** `paginatedStaff`: the slice of page `page`. */
  function PageOf(f: seq<Staff>, page: int): seq<Staff> {
    var start := (page - 1) * PerPage;
    JsSlice(f, start, start + PerPage)
  }

  /** No page when nothing is listed, at least one otherwise. */
  lemma TotalPagesBounds(n: nat)
    ensures n == 0 <==> TotalPages(n) == 0
    ensures TotalPages(n) >= 0
  {
  }

  /** Page `page` is the window `[(page-1)*20, page*20)` of the filtered list,
      cut at its end: at most twenty members, and at least one on every page
      up to the last. */
  lemma PageWindow(f: seq<Staff>, page: int)
    requires page >= 1
    ensures var start := (page - 1) * PerPage;
      PageOf(f, page) == f[SliceBound(start, |f|)..SliceBound(start + PerPage, |f|)]
    ensures |PageOf(f, page)| <= PerPage
    ensures page <= TotalPages(|f|) ==> |PageOf(f, page)| >= 1
  {
  }

  /** Every listed member is on exactly the page its position says. */
  lemma PageOfIndex(f: seq<Staff>, i: int)
    requires 0 <= i < |f|
    ensures 1 <= i / PerPage + 1 <= TotalPages(|f|)
    ensures f[i] == PageOf(f, i / PerPage + 1)[i % PerPage]
  {
    var p := i / PerPage + 1;
    var start := (p - 1) * PerPage;
    assert start == i - i % PerPage;
    PageWindow(f, p);
  }

  /** "Previous" */
  function PrevPage(p: int): int {
    if p - 1 < 1 then 1 else p - 1
  }

  /** "Next" */
  function NextPage(p: int, total: int): int {
    if total < p + 1 then total else p + 1
  }

  /** The two buttons keep a page in `[1, totalPages]` there, and "Next"
      brings a page past the end back to the last one. */
  lemma PagerStaysInRange(p: int, total: int)
    ensures 1 <= p <= total ==> 1 <= PrevPage(p) <= total && 1 <= NextPage(p, total) <= total
    ensures 1 <= total < p ==> NextPage(p, total) == total
    ensures p > 1 ==> PrevPage(p) == p - 1
    ensures p < total ==> NextPage(p, total) == p + 1
  {
  }

  // ------------------------------------------------------------ status counts

  /** `getStatusCount`, over the whole staff list. */
  function StatusCount(staff: seq<Staff>, status: string): nat {
    Count(staff, (m: Staff) => m.eKycStatus == status)
  }

  /** The card for a status shows as many members as the list would with that
      status alone chosen and no search or ministry, whatever is chosen now. */
  lemma StatusCountIgnoresFilters(staff: seq<Staff>, status: string)
    requires status != ""
    ensures StatusCount(staff, status) == |Filtered(staff, "", "", status)|
  {
    forall i | 0 <= i < |staff|
      ensures (staff[i].eKycStatus == status) == Listed(staff[i], "", "", status)
    {
      assert ToLower("") == "";
      assert StartsWith(ToLower(staff[i].firstName), "");
    }
    KeepAgree(staff, (m: Staff) => m.eKycStatus == status, m => Listed(m, "", "", status));
  }

  /** The four status cards never add up to more than the staff list. */
  lemma {:induction false} StatusCountsBounded(staff: seq<Staff>)
    ensures StatusCount(staff, "completed") + StatusCount(staff, "pending") +
            StatusCount(staff, "failed") + StatusCount(staff, "not_invited") <= |staff|
  {
    if staff != [] {
      var n := |staff| - 1;
      StatusCountsBounded(staff[..n]);
    }
  }

  // -------------------------------------------------------------- invitations

  /** `after` is `before` with the invitation sent today and the status
      pending, and nothing else changed. */
  predicate Invited(before: Staff, after: Staff, today: string) {
    after.invitationSent && after.invitationDate == today && after.eKycStatus == "pending" &&
    after.(invitationSent := before.invitationSent,
           invitationDate := before.invitationDate,
           eKycStatus := before.eKycStatus) == before
  }

  /** `handleSendInvitation(staffId)` on the list, with `today` the date part
      of the current time. */
  function Invite(staff: seq<Staff>, staffId: int, today: string): (r: seq<Staff>)
    ensures |r| == |staff|
    ensures forall i :: 0 <= i < |staff| ==> r[i].id == staff[i].id
    ensures forall i :: 0 <= i < |staff| && staff[i].id == staffId ==> Invited(staff[i], r[i], today)
    ensures forall i :: 0 <= i < |staff| && staff[i].id != staffId ==> r[i] == staff[i]
  {
    seq(|staff|, i requires 0 <= i < |staff| =>
      if staff[i].id == staffId
      then staff[i].(invitationSent := true, invitationDate := today, eKycStatus := "pending")
      else staff[i])
  }

  /** Sending the same invitation twice is the same as sending it once, and
      an id nobody has changes nothing. */
  lemma InviteIdempotent(staff: seq<Staff>, staffId: int, today: string)
    ensures Invite(Invite(staff, staffId, today), staffId, today) == Invite(staff, staffId, today)
    ensures (forall i :: 0 <= i < |staff| ==> staff[i].id != staffId) ==> Invite(staff, staffId, today) == staff
  {
  }

  /** An invitation never lowers the "Pending" count, and adds one for every
      invited member who was not pending. */
  lemma {:induction false} InvitePending(staff: seq<Staff>, staffId: int, today: string)
    ensures StatusCount(Invite(staff, staffId, today), "pending") ==
      StatusCount(staff, "pending") + Count(staff, (m: Staff) => m.id == staffId && m.eKycStatus != "pending")
  {
    if staff != [] {
      var n := |staff| - 1;
      var r := Invite(staff, staffId, today);
      assert r[..n] == Invite(staff[..n], staffId, today);
      InvitePending(staff[..n], staffId, today);
    }
  }

  // ------------------------------------------------------------------ export

  const ExportHeader: seq<string> := [
    "National ID", "Payroll Number", "Name", "Email", "Phone", "Job Title",
    "Department", "Ministry", "eKYC Status", "Invitation Date", "Verification Date"]

  /** `value || 'N/A'` */
  function OrNA(s: string): (r: string)
    ensures r != ""
    ensures s != "" ==> r == s
  {
    if s == "" then "N/A" else s
  }

  /** The cells `handleExport` writes for one member, in the header's order. */
  function ExportRow(m: Staff): seq<string> {
    [m.nationalId, m.payrollNumber, m.firstName + " " + m.lastName, m.email, m.phone,
     m.jobTitle, m.department, m.ministryName, m.eKycStatus,
     OrNA(m.invitationDate), OrNA(m.verificationDate)]
  }

  /** One line of the file: `row.join(',')`. */
  function CsvLine(cells: seq<string>): string {
    Join(cells, ",")
  }

  /** The cells of the file: the header, then one row per listed member. */
  function Table(f: seq<Staff>): (t: seq<seq<string>>)
    ensures |t| == |f| + 1 && t[0] == ExportHeader
    ensures forall i :: 0 <= i < |f| ==> t[i + 1] == ExportRow(f[i])
  {
    [ExportHeader] + seq(|f|, i requires 0 <= i < |f| => ExportRow(f[i]))
  }

  /** The rows joined by `,` and the lines by a line break. */
  function CsvText(t: seq<seq<string>>): string {
    Join(seq(|t|, k requires 0 <= k < |t| => CsvLine(t[k])), "\n")
  }

  /** `handleExport`: the CSV text for the filtered list. */
  function Export(f: seq<Staff>): string {
    CsvText(Table(f))
  }

  /** No cell holds a comma or a line break. */
  predicate PlainCells(cells: seq<string>) {
    forall j :: 0 <= j < |cells| ==> ',' !in cells[j] && '\n' !in cells[j]
  }

  /** A line of plain cells reads back as those cells and holds no line
      break. */
  lemma CsvLineReadsBack(cells: seq<string>)
    requires |cells| >= 1 && PlainCells(cells)
    ensures '\n' !in CsvLine(cells)
    ensures Split(CsvLine(cells), ',') == cells
  {
    JoinAvoids(cells, ",", '\n');
    SplitJoin(cells, ',');
  }

  /** A table of plain, non-empty rows reads back line by line and cell by
      cell. */
  lemma CsvTextReadsBack(t: seq<seq<string>>)
    requires |t| >= 1
    requires forall k :: 0 <= k < |t| ==> |t[k]| >= 1 && PlainCells(t[k])
    ensures |Split(CsvText(t), '\n')| == |t|
    ensures forall k :: 0 <= k < |t| ==> Split(Split(CsvText(t), '\n')[k], ',') == t[k]
  {
    var lines := seq(|t|, k requires 0 <= k < |t| => CsvLine(t[k]));
    forall k | 0 <= k < |t| ensures '\n' !in lines[k] && Split(lines[k], ',') == t[k] {
      CsvLineReadsBack(t[k]);
    }
    SplitJoin(lines, '\n');
  }

  lemma HeaderIsPlain()
    ensures |ExportHeader| == 11 && PlainCells(ExportHeader)
  {
    forall j | 0 <= j < |ExportHeader|
      ensures ',' !in ExportHeader[j] && '\n' !in ExportHeader[j]
    {
      if j == 0 {} else if j == 1 {} else if j == 2 {} else if j == 3 {} else if j == 4 {}
      else if j == 5 {} else if j == 6 {} else if j == 7 {} else if j == 8 {} else if j == 9 {}
      else {}
    }
  }

  /** Read back line by line and cell by cell, the export gives the header
      and each listed member's eleven cells in order, as long as no cell
      holds a comma or a line break (the export adds no quoting). */
  lemma ExportReadsBack(f: seq<Staff>)
    requires forall i :: 0 <= i < |f| ==> PlainCells(ExportRow(f[i]))
    ensures |Split(Export(f), '\n')| == |f| + 1
    ensures Split(Split(Export(f), '\n')[0], ',') == ExportHeader
    ensures forall i :: 0 <= i < |f| ==> Split(Split(Export(f), '\n')[i + 1], ',') == ExportRow(f[i])
  {
    var t := Table(f);
    HeaderIsPlain();
    forall k | 0 <= k < |t| ensures |t[k]| >= 1 && PlainCells(t[k]) {
      if k > 0 {
        assert t[k] == ExportRow(f[k - 1]);
      }
    }
    CsvTextReadsBack(t);
  }

  // ----------------------------------------------------------------- also in

  /** The member's other ministries. */
  function OtherMinistries(m: Staff): seq<string> {
    Keep(m.duplicateMinistries, x => x != m.ministryName)
  }

  /** The "Also in" note, shown only for a member flagged as employed twice. */
  function AlsoIn(m: Staff): (r: Option<string>)
    ensures r.Some? <==> m.duplicateEmployment
  {
    if m.duplicateEmployment then Some(Join(OtherMinistries(m), ", ")) else None
  }

  /** The note lists the flagged ministries other than the member's own, in
      their order, and each of them. */
  lemma OtherMinistriesExactly(m: Staff)
    ensures m.ministryName !in OtherMinistries(m)
    ensures forall j :: 0 <= j < |m.duplicateMinistries| && m.duplicateMinistries[j] != m.ministryName ==>
      m.duplicateMinistries[j] in OtherMinistries(m)
    ensures forall x :: x in OtherMinistries(m) ==> x in m.duplicateMinistries
  {
    var o := OtherMinistries(m);
    KeepMembers(m.duplicateMinistries, x => x != m.ministryName);
    forall x | x in o ensures x in m.duplicateMinistries && x != m.ministryName {
      var j :| 0 <= j < |o| && o[j] == x;
    }
  }

  // --------------------------------------------------------------- the screen

  class StaffScreen {
    var staff: seq<Staff>
    var searchTerm: string
    var selectedMinistry: string
    var statusFilter: string
    var currentPage: int

    predicate Valid()
      reads this
    {
      currentPage >= 1
    }

    /** The screen once the staff list is loaded. */
    constructor (loaded: seq<Staff>)
      ensures Valid()
      ensures staff == loaded && searchTerm == "" && selectedMinistry == "" && statusFilter == ""
      ensures currentPage == 1
    {
      staff := loaded;
      searchTerm := "";
      selectedMinistry := "";
      statusFilter := "";
      currentPage := 1;
    }

    function Shown(): seq<Staff>
      reads this
    {
      Filtered(staff, searchTerm, selectedMinistry, statusFilter)
    }

    function Pages(): int
      reads this
    {
      TotalPages(|Shown()|)
    }

    /** The rows of the table. */
    function Visible(): seq<Staff>
      reads this
    {
      PageOf(Shown(), currentPage)
    }

    /** Typing in the search box; the page is not reset. */
    method Search(term: string)
      requires Valid()
      modifies this`searchTerm
      ensures Valid() && searchTerm == term
    {
      searchTerm := term;
    }

    method SelectMinistry(ministry: string)
      requires Valid()
      modifies this`selectedMinistry
      ensures Valid() && selectedMinistry == ministry
    {
      selectedMinistry := ministry;
    }

    /** "Clear Filters": the two drop-downs and the search box emptied, so
        every member is listed again; the page is not reset. */
    method ClearFilters()
      requires Valid()
      modifies this`selectedMinistry, this`statusFilter, this`searchTerm
      ensures Valid()
      ensures selectedMinistry == "" && statusFilter == "" && searchTerm == ""
      ensures Shown() == staff
    {
      selectedMinistry := "";
      statusFilter := "";
      searchTerm := "";
      NoFilterListsAll(staff);
    }

    method SelectStatus(status: string)
      requires Valid()
      modifies this`statusFilter
      ensures Valid() && statusFilter == status
    {
      statusFilter := status;
    }

    /** "Send Invite" / "Resend" for `staffId`. */
    method SendInvitation(staffId: int, today: string)
      requires Valid()
      modifies this`staff
      ensures Valid()
      ensures staff == Invite(old(staff), staffId, today)
    {
      staff := Invite(staff, staffId, today);
    }

    /** "Previous", shown only when there are two pages or more and disabled
        on the first. */
    method Previous()
      requires Valid()
      modifies this`currentPage
      ensures Valid()
      ensures currentPage == if Pages() > 1 && old(currentPage) != 1 then PrevPage(old(currentPage)) else old(currentPage)
      ensures 1 <= old(currentPage) <= Pages() ==> 1 <= currentPage <= Pages()
    {
      if Pages() > 1 && currentPage != 1 {
        PagerStaysInRange(currentPage, Pages());
        currentPage := PrevPage(currentPage);
      }
    }

    /** "Next", shown only when there are two pages or more and disabled on
        the last. */
    method Next()
      requires Valid()
      modifies this`currentPage
      ensures Valid()
      ensures currentPage == if Pages() > 1 && old(currentPage) != Pages() then NextPage(old(currentPage), Pages()) else old(currentPage)
      ensures 1 <= old(currentPage) <= Pages() ==> 1 <= currentPage <= Pages()
    {
      if Pages() > 1 && currentPage != Pages() {
        PagerStaysInRange(currentPage, Pages());
        currentPage := NextPage(currentPage, Pages());
      }
    }
  }
}
