/** The verification-request list: its pagination controls, filters, status
    tabs and row selection, and the small derivations it shows (the
    page-number window, the status totals, the avatar initials). */
module KycVerification {
  import opened Wrappers
  import opened Text
  import opened KycService

  // ------------------------------------------------------ the page window

  /** The number shown on the `i`-th of the page buttons. */
  function PageNumber(page: int, totalPages: int, i: int): int {
    if totalPages <= 5 then i + 1
    else if page <= 3 then i + 1
    else if page >= totalPages - 2 then totalPages - 4 + i
    else page - 2 + i
  }

  /** The page buttons: `Math.min(5, totalPages)` of them (none when the
      count is negative). */
  function PageWindow(page: int, totalPages: int): (w: seq<int>)
    ensures |w| == if totalPages < 0 then 0 else if totalPages < 5 then totalPages else 5
    ensures forall i :: 0 <= i < |w| ==> w[i] == PageNumber(page, totalPages, i)
  {
    var n := if totalPages < 0 then 0 else if totalPages < 5 then totalPages else 5;
    seq(n, i requires 0 <= i < n => PageNumber(page, totalPages, i))
  }

  /** Five pages or fewer: one button per page, in order. */
  lemma SmallWindow(page: int, totalPages: int)
    requires 0 <= totalPages <= 5
    ensures PageWindow(page, totalPages) == seq(totalPages, i => i + 1)
  {
  }

  /** More than five pages and a page in range: five consecutive pages,
      all of them real pages, one of them the current page. */
  lemma LargeWindow(page: int, totalPages: int)
    requires totalPages > 5 && 1 <= page <= totalPages
    ensures var w := PageWindow(page, totalPages);
      |w| == 5 &&
      (forall i :: 0 <= i < 4 ==> w[i + 1] == w[i] + 1) &&
      1 <= w[0] && w[4] <= totalPages &&
      page in w
  {
    var w := PageWindow(page, totalPages);
    if page <= 3 {
      assert w[page - 1] == page;
    } else if page >= totalPages - 2 {
      assert w[page - totalPages + 4] == page;
    } else {
      assert w[2] == page;
    }
  }

  /** Even when a smaller page count arrives after the page was set, every
      button names a real page. */
  lemma WindowInRange(page: int, totalPages: int)
    requires page >= 1
    ensures forall x :: x in PageWindow(page, totalPages) ==> 1 <= x <= totalPages
  {
  }

  // ------------------------------------------------------------- totals

  datatype Totals = Totals(all: nat, pending: nat, approved: nat, rejected: nat)

  /** `getTotalsByStatus`: the counts of the three statuses on the loaded
      page, and `all` overwritten with their sum. */
  function TotalsOf(recs: seq<Kyc>): Totals {
    var p := CountStatus(recs, "pending");
    var a := CountStatus(recs, "approved");
    var r := CountStatus(recs, "rejected");
    Totals(p + a + r, p, a, r)
  }

  predicate KnownStatus(r: Kyc) {
    r.status == "pending" || r.status == "approved" || r.status == "rejected"
  }

  /** `all` never exceeds the number of loaded requests, and equals it
      exactly when every request has one of the three statuses. */
  lemma {:induction false} TotalsCount(recs: seq<Kyc>)
    ensures TotalsOf(recs).all <= |recs|
    ensures TotalsOf(recs).all == |recs| <==> forall i :: 0 <= i < |recs| ==> KnownStatus(recs[i])
  {
    if recs != [] {
      var n := |recs| - 1;
      TotalsCount(recs[..n]);
      TotalsStep(recs);
      assert forall i :: 0 <= i < n ==> recs[..n][i] == recs[i];
    }
  }

  /** The last request adds one to `all` exactly when its status is one of
      the three. */
  lemma TotalsStep(recs: seq<Kyc>)
    requires recs != []
    ensures TotalsOf(recs).all ==
      TotalsOf(recs[..|recs| - 1]).all + (if KnownStatus(recs[|recs| - 1]) then 1 else 0)
  {
  }

  // ----------------------------------------------------------- initials

  /** `s.charAt(0)`: the first character, or "" for an empty string. */
  function FirstChar(s: string): string {
    if |s| > 0 then [s[0]] else ""
  }

  /** `getInitials`: 'U' for no name; when a space splits it, the first
      characters of the first two parts; otherwise the first character. */
  function Initials(name: string): (r: string)
    ensures |r| <= 2
    ensures name == "" ==> r == "U"
  {
    if name == "" then "U"
    else
      var parts := Split(name, ' ');
      if |parts| > 1 then FirstChar(parts[0]) + FirstChar(parts[1])
      else FirstChar(name)
  }

  /** Without a space the initial is the first character; with one, it is
      the first character of the text before the first space followed by
      the first character of what follows it, up to the next space. */
  lemma InitialsCases(name: string)
    requires name != ""
    ensures ' ' !in name ==> Initials(name) == [name[0]]
    ensures ' ' in name ==> var k := FirstIndexOf(name, ' ');
      Initials(name) == FirstChar(name[..k]) + FirstChar(Split(name[k + 1..], ' ')[0])
  {
    SplitFirst(name, ' ');
  }

  /** "John Kimani" gives "JK"; " Kimani", with nothing before the space,
      gives only "K". */
  lemma InitialsOfTwoWords(a: string, b: string)
    requires ' ' !in a && ' ' !in b && |b| > 0
    ensures Initials(a + [' '] + b) == FirstChar(a) + [b[0]]
  {
    var name := a + [' '] + b;
    SplitAt(a, b, ' ');
    SplitNoSeparator(b, ' ');
    assert Split(name, ' ') == [a, b];
  }

  // ------------------------------------------------------------ the list

  /** The filter form; a date input that is empty is `NoDate`. */
  datatype Filters = Filters(status: string, verificationType: string, searchTerm: string, dateFrom: DateParam, dateTo: DateParam)

  const NoFilters: Filters := Filters("", "", "", NoDate, NoDate)

  /** One filter input changing (`{ ...filters, [name]: value }`). */
  datatype FilterEdit =
    | SetStatus(status: string)
    | SetVerificationType(verificationType: string)
    | SetSearchTerm(searchTerm: string)
    | SetDateFrom(dateFrom: DateParam)
    | SetDateTo(dateTo: DateParam)

  function ApplyEdit(f: Filters, e: FilterEdit): Filters {
    match e
    case SetStatus(v) => f.(status := v)
    case SetVerificationType(v) => f.(verificationType := v)
    case SetSearchTerm(v) => f.(searchTerm := v)
    case SetDateFrom(v) => f.(dateFrom := v)
    case SetDateTo(v) => f.(dateTo := v)
  }

  /** The parameters `fetchKycRequests` sends: page, limit, newest first,
      and the filters (an empty filter is left out, which is the same as
      sending it empty). */
  function QueryOf(f: Filters, page: int, limit: int): Params {
    Params(f.status, f.verificationType, f.searchTerm, f.dateFrom, f.dateTo, "createdAt:desc",
      IntToString(page), IntToString(limit))
  }

  /** The page sent is the page read back. */
  lemma QueryPage(f: Filters, page: int, limit: int)
    requires page >= 1 && limit >= 1
    ensures IntOr(QueryOf(f, page, limit).page, 1) == page
    ensures IntOr(QueryOf(f, page, limit).limit, 10) == limit
  {
    ParseIntToString(page);
    ParseIntToString(limit);
  }

  /** The row selection after clicking the box of `id`: removed (every
      copy) when there, appended when not. */
  function Toggle(selected: seq<string>, id: string): (r: seq<string>)
    ensures id in selected ==> id !in r && forall x :: x != id ==> (x in r <==> x in selected)
    ensures id !in selected ==> r == selected + [id]
  {
    if id in selected then Without(selected, id) else selected + [id]
  }

  /** `selected.filter(rowId => rowId !== id)` */
  function Without(s: seq<string>, id: string): (r: seq<string>)
    ensures id !in r
    ensures forall x :: x != id ==> (x in r <==> x in s)
    ensures id !in s ==> r == s
  {
    if s == [] then []
    else
      var n := |s| - 1;
      var init := Without(s[..n], id);
      assert s == s[..n] + [s[n]];
      init + (if s[n] == id then [] else [s[n]])
  }

  /** Removing an id from two parts of the selection removes it from each,
      so the other ids keep their order. */
  lemma {:induction false} WithoutAppend(a: seq<string>, b: seq<string>, id: string)
    ensures Without(a + b, id) == Without(a, id) + Without(b, id)
    decreases |b|
  {
    if b == [] {
      assert a + b == a;
    } else {
      var n := |b| - 1;
      assert (a + b)[..|a + b| - 1] == a + b[..n];
      WithoutAppend(a, b[..n], id);
    }
  }

  /** Every other id keeps all its copies. */
  lemma {:induction false} WithoutCopies(s: seq<string>, id: string)
    ensures forall x :: multiset(Without(s, id))[x] == if x != id then multiset(s)[x] else 0
  {
    if s != [] {
      var n := |s| - 1;
      WithoutCopies(s[..n], id);
      assert s == s[..n] + [s[n]];
      assert multiset(s) == multiset(s[..n]) + multiset{s[n]};
    }
  }

  /** Ticking a box that is not ticked and then unticking it gives back the
      selection. */
  lemma ToggleTwice(selected: seq<string>, id: string)
    requires id !in selected
    ensures Toggle(Toggle(selected, id), id) == selected
  {
    assert (selected + [id])[..|selected|] == selected;
  }

  function Ids(recs: seq<Kyc>): (ids: seq<string>)
    ensures |ids| == |recs| && forall i :: 0 <= i < |recs| ==> ids[i] == recs[i].id
  {
    seq(|recs|, i requires 0 <= i < |recs| => recs[i].id)
  }

  /** What one fetch brings back for a page and limit of at least 1:
      requests that pass the filters, exactly that page of the newest-first
      matches, and a page count that is not negative. */
  lemma FetchedPage(recs: seq<Kyc>, f: Filters, page: int, limit: int)
    requires page >= 1 && limit >= 1
    ensures var q := QueryOf(f, page, limit); var l := GetAll(recs, q);
      var m := SortMatches(Filter(recs, q), "createdAt:desc");
      (forall x :: x in l.results ==> x in recs && Selected(q, x)) &&
      var start := (page - 1) * limit;
      0 <= start && l.results == JsSlice(m, start, start + limit) &&
      |l.results| <= limit && l.totalPages >= 0
  {
    var q := QueryOf(f, page, limit);
    var m := SortMatches(Filter(recs, q), q.sort);
    GetAllFilters(recs, q);
    GetAllPages(recs, q);
    QueryPage(f, page, limit);
    assert GetAll(recs, q) == Paginate(m, page, limit);
    PaginateWindow(m, page, limit);
  }

  /** A list opened on page 1 whose per-page limit then changes: the render
      after the change fetches nothing, so the rows shown are still the ones
      fetched with the limit of 10. */
  method LimitChangeOnFirstPage(recs: seq<Kyc>, newLimit: int) returns (shown: seq<Kyc>, limit: int)
    requires newLimit in {10, 25, 50, 100}
    ensures limit == newLimit
    ensures shown == GetAll(recs, QueryOf(NoFilters, 1, 10)).results
  {
    var list := new RequestList();
    list.Settle(recs);
    list.LimitChange(newLimit);
    list.Settle(recs);
    shown, limit := list.requests, list.limit;
  }

  class RequestList {
    var requests: seq<Kyc>
    var page: int
    var limit: int
    var totalPages: int
    var totalResults: int
    var filters: Filters
    var activeStatus: string
    var selectedRows: seq<string>
    var selectAll: bool
    /** A fetch is due: `page` or `filters` changed since the last fetch, so
        the effect on `[pagination.page, filters]` runs after the render.
        `filters` counts as changed whenever a new object is set, even one
        with the same contents. */
    var stale: bool

    predicate Valid()
      reads this
    {
      page >= 1 && limit >= 1
    }

    constructor ()
      ensures Valid()
      ensures requests == [] && page == 1 && limit == 10 && totalPages == 1 && totalResults == 0
      ensures filters == NoFilters && activeStatus == "all" && selectedRows == [] && !selectAll
      ensures stale
    {
      requests := [];
      page := 1;
      limit := 10;
      totalPages := 1;
      totalResults := 0;
      filters := NoFilters;
      activeStatus := "all";
      selectedRows := [];
      selectAll := false;
      stale := true;
    }

    /** `fetchKycRequests` against the stored requests `recs`: the page of
        matches, the page count (at least 1), and the selection cleared;
        `FetchedPage` says what the loaded requests are. */
    method Fetch(recs: seq<Kyc>)
      requires Valid()
      modifies this
      ensures Valid()
      ensures var l := GetAll(recs, QueryOf(old(filters), old(page), old(limit)));
        requests == l.results && totalResults == l.totalResults &&
        totalPages == (if l.totalPages == 0 then 1 else l.totalPages)
      ensures selectedRows == [] && !selectAll
      ensures page == old(page) && limit == old(limit) && filters == old(filters) && activeStatus == old(activeStatus)
      ensures !stale
    {
      var response := GetAll(recs, QueryOf(filters, page, limit));
      Receive(response);
      stale := false;
    }

    /** The effect on `[pagination.page, filters]` after a render: it fetches
        when a dependency changed, and otherwise leaves everything as it is. */
    method Settle(recs: seq<Kyc>)
      requires Valid()
      modifies this
      ensures Valid() && !stale
      ensures old(stale) ==> var l := GetAll(recs, QueryOf(old(filters), old(page), old(limit)));
        requests == l.results && totalResults == l.totalResults &&
        totalPages == (if l.totalPages == 0 then 1 else l.totalPages) &&
        selectedRows == [] && !selectAll
      ensures !old(stale) ==> requests == old(requests) && totalResults == old(totalResults)
      ensures !old(stale) ==> totalPages == old(totalPages) && selectedRows == old(selectedRows) && selectAll == old(selectAll)
      ensures page == old(page) && limit == old(limit) && filters == old(filters) && activeStatus == old(activeStatus)
    {
      if stale {
        Fetch(recs);
      }
    }

    /** What the list keeps of a `getAll` response. */
    method Receive(response: Listing)
      requires Valid()
      modifies this
      ensures Valid()
      ensures requests == response.results && totalResults == response.totalResults
      ensures totalPages == if response.totalPages == 0 then 1 else response.totalPages
      ensures selectedRows == [] && !selectAll
      ensures page == old(page) && limit == old(limit) && filters == old(filters) && activeStatus == old(activeStatus)
      ensures stale == old(stale)
    {
      requests := response.results;
      totalPages := if response.totalPages == 0 then 1 else response.totalPages;
      totalResults := response.totalResults;
      selectedRows := [];
      selectAll := false;
    }

    /** `handleFilterChange`: the filter changes and the first page is
        shown. */
    method FilterChange(e: FilterEdit)
      requires Valid()
      modifies this
      ensures Valid()
      ensures filters == ApplyEdit(old(filters), e) && page == 1 && stale
      ensures requests == old(requests) && limit == old(limit) && totalPages == old(totalPages)
      ensures activeStatus == old(activeStatus) && selectedRows == old(selectedRows) && selectAll == old(selectAll)
    {
      filters := ApplyEdit(filters, e);
      page := 1;
      stale := true;
    }

    /** `handlePageChange`: only a page between 1 and the page count is
        taken. */
    method PageChange(newPage: int)
      requires Valid()
      modifies this
      ensures Valid()
      ensures 1 <= newPage <= old(totalPages) ==> page == newPage
      ensures !(1 <= newPage <= old(totalPages)) ==> page == old(page)
      ensures stale == (old(stale) || page != old(page))
      ensures requests == old(requests) && limit == old(limit) && totalPages == old(totalPages) && filters == old(filters)
      ensures activeStatus == old(activeStatus) && selectedRows == old(selectedRows) && selectAll == old(selectAll)
    {
      if newPage >= 1 && newPage <= totalPages {
        stale := stale || newPage != page;
        page := newPage;
      }
    }

    /** `resetFilters`: every filter empty and the "all" tab, but the page
        is kept. */
    method ResetFilters()
      requires Valid()
      modifies this
      ensures Valid()
      ensures filters == NoFilters && activeStatus == "all" && page == old(page) && stale
      ensures requests == old(requests) && limit == old(limit) && totalPages == old(totalPages)
      ensures selectedRows == old(selectedRows) && selectAll == old(selectAll)
    {
      filters := NoFilters;
      activeStatus := "all";
      stale := true;
    }

    /** The clear button of the search box: only the search term is
        emptied; unlike the other filter inputs it keeps the page. */
    method ClearSearch()
      requires Valid()
      modifies this`filters, this`stale
      ensures Valid()
      ensures filters == old(filters).(searchTerm := "") && stale
    {
      filters := filters.(searchTerm := "");
      stale := true;
    }

    /** `handleStatusTabClick`: "all" clears the status filter, any other tab
        sets it; either way the first page is shown. */
    method StatusTabClick(status: string)
      requires Valid()
      modifies this
      ensures Valid()
      ensures activeStatus == status && page == 1 && stale
      ensures filters == old(filters).(status := if status == "all" then "" else status)
      ensures requests == old(requests) && limit == old(limit) && totalPages == old(totalPages)
      ensures selectedRows == old(selectedRows) && selectAll == old(selectAll)
    {
      activeStatus := status;
      if status == "all" {
        filters := filters.(status := "");
      } else {
        filters := filters.(status := status);
      }
      page := 1;
      stale := true;
    }

    /** The per-page selector (10, 25, 50 or 100): the first page is shown.
        The limit is not a dependency of the fetch effect, so a fetch becomes
        due only when the page was not already 1; on page 1 the rows fetched
        with the old limit stay. */
    method LimitChange(newLimit: int)
      requires Valid() && newLimit in {10, 25, 50, 100}
      modifies this
      ensures Valid()
      ensures limit == newLimit && page == 1
      ensures stale == (old(stale) || old(page) != 1)
      ensures requests == old(requests) && totalPages == old(totalPages) && filters == old(filters)
      ensures activeStatus == old(activeStatus) && selectedRows == old(selectedRows) && selectAll == old(selectAll)
    {
      stale := stale || page != 1;
      limit := newLimit;
      page := 1;
    }

    /** `handleRowSelect` */
    method RowSelect(id: string)
      requires Valid()
      modifies this
      ensures Valid()
      ensures selectedRows == Toggle(old(selectedRows), id)
      ensures requests == old(requests) && page == old(page) && limit == old(limit) && totalPages == old(totalPages)
      ensures filters == old(filters) && activeStatus == old(activeStatus) && selectAll == old(selectAll)
      ensures stale == old(stale)
    {
      if id in selectedRows {
        selectedRows := Without(selectedRows, id);
      } else {
        selectedRows := selectedRows + [id];
      }
    }

    /** `handleSelectAll`: the flag flips; the selection becomes every id on
        the page when it was off, and empty when it was on. */
    method SelectAllClick()
      requires Valid()
      modifies this
      ensures Valid()
      ensures selectAll == !old(selectAll)
      ensures selectedRows == if old(selectAll) then [] else Ids(requests)
      ensures requests == old(requests) && page == old(page) && limit == old(limit) && totalPages == old(totalPages)
      ensures filters == old(filters) && activeStatus == old(activeStatus) && stale == old(stale)
    {
      if selectAll {
        selectedRows := [];
      } else {
        selectedRows := Ids(requests);
      }
      selectAll := !selectAll;
    }
  }
}
