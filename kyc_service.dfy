/** The mock KYC back end: the hard-coded login, the request query
    (`getAll`: filter, sort, paginate), lookup and status update on the
    stored requests, and the dashboard counters. Timestamps are milliseconds
    since the epoch; the local time zone is taken to be UTC. */
module KycService {
  import opened Wrappers
  import opened Text
  import Lists

  // ------------------------------------------------------------- records

  /** The fields of the scanned national ID card the service reads. A
      missing or unreadable date of birth is `None`; a missing district is
      "". */
  datatype IdCard = IdCard(idNumber: string, birthYear: Option<int>, gender: string, district: string)

  datatype Document = Document(documentType: string, imageUrl: string)

  datatype Frame = Frame(imageUrl: string, timestamp: string)

  datatype Liveness = Liveness(status: string, frames: seq<Frame>)

  /** One verification request. */
  datatype Kyc = Kyc(
    id: string,
    status: string,
    userName: string,
    userEmail: string,
    userPhone: string,
    verificationType: string,
    remarks: string,
    createdAt: int,
    updatedAt: int,
    nationalId: Option<IdCard>,
    documents: seq<Document>,
    livenessCheck: Option<Liveness>)

  // --------------------------------------------------------------- login

  datatype User = User(id: string, name: string, email: string, role: string)

  datatype Session = Session(token: string, user: User)

  const BadCredentials: string := "Invalid credentials. Use username \"user\" and password \"password\"."

  /** `authService.login`: one fixed pair is accepted; everything else
      throws with a fixed message. */
  function Login(email: string, password: string): (r: Result<Session>)
    ensures r.Ok? <==> email == "user" && password == "password"
    ensures r.Ok? ==> r.value.token == "mock-jwt-token" && r.value.user == User("1", "Test User", "user", "admin")
    ensures r.Err? ==> r.message == BadCredentials
  {
    if email == "user" && password == "password" then
      Ok(Session("mock-jwt-token", User("1", "Test User", "user", "admin")))
    else
      Err(BadCredentials)
  }

  // ------------------------------------------------------------- filters

  /** A date parameter: absent (empty), present but not a date (`NaN`,
      which no comparison satisfies), or a point in time. */
  datatype DateParam = NoDate | BadDate | At(ms: int)

  /** The query parameters; an absent string parameter is "". */
  datatype Params = Params(
    status: string,
    verificationType: string,
    searchTerm: string,
    dateFrom: DateParam,
    dateTo: DateParam,
    sort: string,
    page: string,
    limit: string)

  const DayMs: int := 86400000

  /** `setHours(23, 59, 59, 999)`: the last millisecond of the day. */
  function EndOfDay(t: int): (e: int)
    ensures t <= e < t + DayMs
    ensures (e + 1) % DayMs == 0
  {
    t - t % DayMs + DayMs - 1
  }

  /** `nationalId?.idNumber || ''` */
  function IdNumberOf(r: Kyc): string {
    if r.nationalId.Some? then r.nationalId.value.idNumber else ""
  }

  /** The search: the lower-cased term inside the lower-cased id, name,
      email or ID number. */
  predicate MatchesSearch(r: Kyc, term: string) {
    ContainsIgnoringCase(r.id, term) || ContainsIgnoringCase(r.userName, term) ||
    ContainsIgnoringCase(r.userEmail, term) || ContainsIgnoringCase(IdNumberOf(r), term)
  }

  predicate FromOk(r: Kyc, d: DateParam) {
    match d
    case NoDate => true
    case BadDate => false
    case At(t) => r.createdAt >= t
  }

  predicate ToOk(r: Kyc, d: DateParam) {
    match d
    case NoDate => true
    case BadDate => false
    case At(t) => r.createdAt <= EndOfDay(t)
  }

  /** A request passes every filter that is given. */
  predicate Selected(q: Params, r: Kyc) {
    (q.status == "" || r.status == q.status) &&
    (q.verificationType == "" || r.verificationType == q.verificationType) &&
    (q.searchTerm == "" || MatchesSearch(r, q.searchTerm)) &&
    FromOk(r, q.dateFrom) && ToOk(r, q.dateTo)
  }

  /** The test the chain of filters applies. */
  function SelectedBy(q: Params): Kyc -> bool {
    r => Selected(q, r)
  }

  /** The chain of `filter` calls, in record order. */
  function Filter(recs: seq<Kyc>, q: Params): (out: seq<Kyc>)
    ensures |out| <= |recs|
    ensures forall x :: x in out ==> x in recs && Selected(q, x)
  {
    Lists.KeepMembers(recs, SelectedBy(q));
    Lists.Keep(recs, SelectedBy(q))
  }

  /** Nothing that passes is dropped. */
  lemma FilterComplete(recs: seq<Kyc>, q: Params, x: Kyc)
    requires x in recs && Selected(q, x)
    ensures x in Filter(recs, q)
  {
    Lists.KeepMembers(recs, SelectedBy(q));
    var i :| 0 <= i < |recs| && recs[i] == x;
  }

  // ---------------------------------------------------------------- sort

  /** `params.sort.split(':')`: the field name before the first colon. */
  function SortField(sort: string): string {
    Split(sort, ':')[0]
  }

  predicate SortDescending(sort: string) {
    var parts := Split(sort, ':');
    |parts| > 1 && parts[1] == "desc"
  }

  /** `new Date(r[field])`: a date for the two timestamp fields; any other
      field gives `NaN`. */
  function DateOf(r: Kyc, field: string): Option<int> {
    if field == "createdAt" then Some(r.createdAt)
    else if field == "updatedAt" then Some(r.updatedAt)
    else None
  }

  predicate SortedBy<T>(s: seq<T>, key: T -> int) {
    forall i, j :: 0 <= i < j < |s| ==> key(s[i]) <= key(s[j])
  }

  /** Puts `x` after every element whose key is not above its own. */
  function Insert<T>(x: T, s: seq<T>, key: T -> int): (r: seq<T>)
    requires SortedBy(s, key)
    ensures multiset(r) == multiset(s) + multiset{x}
    ensures forall i :: 0 <= i < |r| ==> r[i] == x || r[i] in s
    ensures SortedBy(r, key)
  {
    if s == [] then [x]
    else if key(x) < key(s[0]) then
      ConsSorted(x, s, key);
      [x] + s
    else
      var rest := Insert(x, s[1..], key);
      InsertAfterHead(x, s, rest, key);
      [s[0]] + rest
  }

  /** An element no greater than any of a sorted sequence can go in front. */
  lemma ConsSorted<T>(a: T, s: seq<T>, key: T -> int)
    requires SortedBy(s, key)
    requires forall i :: 0 <= i < |s| ==> key(a) <= key(s[i])
    ensures SortedBy([a] + s, key)
  {
    var r := [a] + s;
    forall i, j | 0 <= i < j < |r|
      ensures key(r[i]) <= key(r[j])
    {
      assert r[j] == s[j - 1];
      if i > 0 {
        assert r[i] == s[i - 1];
      }
    }
  }

  /** The step of `Insert` that keeps the head of `s` in front of the
      insertion into the tail. */
  lemma InsertAfterHead<T>(x: T, s: seq<T>, rest: seq<T>, key: T -> int)
    requires s != [] && SortedBy(s, key) && key(s[0]) <= key(x)
    requires SortedBy(rest, key)
    requires multiset(rest) == multiset(s[1..]) + multiset{x}
    requires forall i :: 0 <= i < |rest| ==> rest[i] == x || rest[i] in s[1..]
    ensures multiset([s[0]] + rest) == multiset(s) + multiset{x}
    ensures forall i :: 0 <= i < |[s[0]] + rest| ==> ([s[0]] + rest)[i] == x || ([s[0]] + rest)[i] in s
    ensures SortedBy([s[0]] + rest, key)
  {
    assert s == [s[0]] + s[1..];
    forall i | 0 <= i < |rest|
      ensures key(s[0]) <= key(rest[i])
    {
      if rest[i] != x {
        var j :| 0 <= j < |s[1..]| && s[1..][j] == rest[i];
        assert s[j + 1] == rest[i];
      }
    }
    ConsSorted(s[0], rest, key);
    var r := [s[0]] + rest;
    forall i | 0 <= i < |r|
      ensures r[i] == x || r[i] in s
    {
      if i > 0 {
        assert r[i] == rest[i - 1];
      }
    }
  }

  /** `Array.prototype.sort`, which is stable, with a comparator that never
      yields `NaN`: ascending by `key`, equal keys in their old order. */
  function SortStable<T>(s: seq<T>, key: T -> int): (r: seq<T>)
    ensures SortedBy(r, key)
    ensures multiset(r) == multiset(s)
  {
    if s == [] then []
    else
      var n := |s| - 1;
      assert s == s[..n] + [s[n]];
      Insert(s[n], SortStable(s[..n], key), key)
  }

  /** The test "has key `k`". */
  function KeyIs<T>(key: T -> int, k: int): T -> bool {
    x => key(x) == k
  }

  /** Inserting keeps the elements of each key in their order, with `x`
      after those that share its key. */
  lemma {:induction false} InsertKeepsTies<T>(x: T, s: seq<T>, key: T -> int, k: int)
    requires SortedBy(s, key)
    ensures Lists.Keep(Insert(x, s, key), KeyIs(key, k)) == Lists.Keep(s, KeyIs(key, k)) + Lists.Keep([x], KeyIs(key, k))
    decreases |s|
  {
    if s == [] {
      assert Insert(x, s, key) == [x];
      assert Lists.Keep(s, KeyIs(key, k)) == [];
    } else if key(x) < key(s[0]) {
      assert Insert(x, s, key) == [x] + s;
      InsertInFrontTies(x, s, key, k);
    } else {
      TailSorted(s, key);
      var rest := Insert(x, s[1..], key);
      assert Insert(x, s, key) == [s[0]] + rest;
      InsertKeepsTies(x, s[1..], key, k);
      InsertBehindTies(x, s, rest, key, k);
    }
  }

  /** `x` in front of a sorted sequence whose keys are all above its own. */
  lemma InsertInFrontTies<T>(x: T, s: seq<T>, key: T -> int, k: int)
    requires s != [] && SortedBy(s, key) && key(x) < key(s[0])
    ensures Lists.Keep([x] + s, KeyIs(key, k)) == Lists.Keep(s, KeyIs(key, k)) + Lists.Keep([x], KeyIs(key, k))
  {
    var p := KeyIs(key, k);
    Lists.KeepAppend([x], s, p);
    if key(x) == k {
      forall i | 0 <= i < |s|
        ensures !p(s[i])
      {
        if i > 0 {
          assert key(s[0]) <= key(s[i]);
        }
      }
      Lists.KeepNone(s, p);
    } else {
      Lists.KeepOne(x, p);
    }
  }

  /** The head of `s` in front of the insertion into its tail. */
  lemma InsertBehindTies<T>(x: T, s: seq<T>, rest: seq<T>, key: T -> int, k: int)
    requires s != []
    requires Lists.Keep(rest, KeyIs(key, k)) == Lists.Keep(s[1..], KeyIs(key, k)) + Lists.Keep([x], KeyIs(key, k))
    ensures Lists.Keep([s[0]] + rest, KeyIs(key, k)) == Lists.Keep(s, KeyIs(key, k)) + Lists.Keep([x], KeyIs(key, k))
  {
    var p := KeyIs(key, k);
    Lists.KeepAppend([s[0]], rest, p);
    Lists.KeepAppend([s[0]], s[1..], p);
    assert [s[0]] + s[1..] == s;
  }

  lemma TailSorted<T>(s: seq<T>, key: T -> int)
    requires s != [] && SortedBy(s, key)
    ensures SortedBy(s[1..], key)
  {
    forall i, j | 0 <= i < j < |s[1..]|
      ensures key(s[1..][i]) <= key(s[1..][j])
    {
      assert s[1..][i] == s[i + 1] && s[1..][j] == s[j + 1];
    }
  }

  /** The sort is stable: the elements that share a key come out in their
      old order. */
  lemma {:induction false} SortKeepsTies<T>(s: seq<T>, key: T -> int, k: int)
    ensures Lists.Keep(SortStable(s, key), KeyIs(key, k)) == Lists.Keep(s, KeyIs(key, k))
  {
    if s != [] {
      var n := |s| - 1;
      var sorted := SortStable(s[..n], key);
      assert SortStable(s, key) == Insert(s[n], sorted, key);
      SortKeepsTies(s[..n], key, k);
      InsertKeepsTies(s[n], sorted, key, k);
      LastTies(s, KeyIs(key, k));
    }
  }

  lemma LastTies<T>(s: seq<T>, p: T -> bool)
    requires s != []
    ensures Lists.Keep(s, p) == Lists.Keep(s[..|s| - 1], p) + Lists.Keep([s[|s| - 1]], p)
  {
    var n := |s| - 1;
    assert Lists.Keep(s, p) == Lists.Keep(s[..n], p) + (if p(s[n]) then [s[n]] else []);
    Lists.KeepOne(s[n], p);
  }

  /** The comparator's key: `a - b` sorts by the date, `b - a` by its
      negation. */
  function SortKey(field: string, desc: bool): Kyc -> int
    requires field == "createdAt" || field == "updatedAt"
  {
    (r: Kyc) => var d := if field == "createdAt" then r.createdAt else r.updatedAt; if desc then -d else d
  }

  /** The sort step: a timestamp field is sorted on; any other field makes
      every comparison `NaN`, which the sort reads as a tie, so the order
      stays. */
  function SortMatches(recs: seq<Kyc>, sort: string): seq<Kyc> {
    var field := SortField(sort);
    if sort != "" && (field == "createdAt" || field == "updatedAt") then
      SortStable(recs, SortKey(field, SortDescending(sort)))
    else recs
  }

  /** The test "has date `t` in `field`". */
  function SameDate(field: string, t: int): Kyc -> bool {
    r => DateOf(r, field) == Some(t)
  }

  /** Requests with the same date, sorted on that date, stay in their
      stored order. */
  lemma {:induction false} SortMatchesTies(recs: seq<Kyc>, sort: string, t: int)
    requires var f := SortField(sort); sort != "" && (f == "createdAt" || f == "updatedAt")
    ensures Lists.Keep(SortMatches(recs, sort), SameDate(SortField(sort), t)) == Lists.Keep(recs, SameDate(SortField(sort), t))
  {
    var f := SortField(sort);
    var desc := SortDescending(sort);
    var key := SortKey(f, desc);
    var k := if desc then -t else t;
    var s := SortStable(recs, key);
    assert SortMatches(recs, sort) == s;
    SortKeepsTies(recs, key, k);
    forall r: Kyc
      ensures SameDate(f, t)(r) == KeyIs(key, k)(r)
    {
      SameDateIsKey(f, desc, t, r);
    }
    Lists.KeepAgree(s, SameDate(f, t), KeyIs(key, k));
    Lists.KeepAgree(recs, SameDate(f, t), KeyIs(key, k));
  }

  lemma SameDateIsKey(f: string, desc: bool, t: int, r: Kyc)
    requires f == "createdAt" || f == "updatedAt"
    ensures SameDate(f, t)(r) == KeyIs(SortKey(f, desc), if desc then -t else t)(r)
  {
  }

  /** Sorting keeps the matches and orders them as asked: descending when
      the direction is `desc`, ascending otherwise, with requests of equal
      date in their stored order, and unchanged for a field that is not a
      date. */
  lemma SortMatchesOrder(recs: seq<Kyc>, sort: string)
    ensures multiset(SortMatches(recs, sort)) == multiset(recs)
    ensures var s := SortMatches(recs, sort); var f := SortField(sort);
      sort != "" && (f == "createdAt" || f == "updatedAt") ==>
        forall i, j :: 0 <= i < j < |s| ==>
          if SortDescending(sort) then DateOf(s[i], f).value >= DateOf(s[j], f).value
          else DateOf(s[i], f).value <= DateOf(s[j], f).value
    ensures var s := SortMatches(recs, sort); var f := SortField(sort);
      sort != "" && (f == "createdAt" || f == "updatedAt") ==>
        forall t :: Lists.Keep(s, SameDate(f, t)) == Lists.Keep(recs, SameDate(f, t))
    ensures sort == "" || (SortField(sort) != "createdAt" && SortField(sort) != "updatedAt") ==>
      SortMatches(recs, sort) == recs
  {
    var f := SortField(sort);
    if sort != "" && (f == "createdAt" || f == "updatedAt") {
      var key := SortKey(f, SortDescending(sort));
      var s := SortMatches(recs, sort);
      assert SortedBy(s, key);
      forall i, j | 0 <= i < j < |s|
        ensures if SortDescending(sort) then DateOf(s[i], f).value >= DateOf(s[j], f).value
          else DateOf(s[i], f).value <= DateOf(s[j], f).value
      {
        assert key(s[i]) <= key(s[j]);
      }
      forall t
        ensures Lists.Keep(s, SameDate(f, t)) == Lists.Keep(recs, SameDate(f, t))
      {
        SortMatchesTies(recs, sort, t);
      }
    }
  }

  // ------------------------------------------------------------ paginate

  /** `parseInt(v) || d`: `NaN` and 0 fall back to the default. */
  function IntOr(v: string, d: int): (r: int)
    requires d != 0
    ensures r != 0
    ensures ParseInt(v).Some? && ParseInt(v).value != 0 ==> r == ParseInt(v).value
    ensures ParseInt(v).None? || ParseInt(v).value == 0 ==> r == d
  {
    match ParseInt(v)
    case None => d
    case Some(x) => if x == 0 then d else x
  }

  /** What `getAll` returns. */
  datatype Listing = Listing(results: seq<Kyc>, totalPages: int, totalResults: nat, page: int, limit: int)

  /** The pagination step over the sorted matches. */
  function Paginate(matched: seq<Kyc>, page: int, limit: int): Listing
    requires limit != 0
  {
    var start := (page - 1) * limit;
    Listing(JsSlice(matched, start, start + limit), CeilDiv(|matched|, limit), |matched|, page, limit)
  }

  /** `kycService.getAll` over the stored requests. */
  function GetAll(recs: seq<Kyc>, q: Params): Listing {
    Paginate(SortMatches(Filter(recs, q), q.sort), IntOr(q.page, 1), IntOr(q.limit, 10))
  }

  // -------------------------------------------------------------- lemmas

  /** An element of a slice is an element of the sequence. */
  lemma SliceMember<T>(s: seq<T>, a: int, b: int, x: T)
    requires x in JsSlice(s, a, b)
    ensures x in s
  {
    var lo := SliceBound(a, |s|);
    var hi := SliceBound(b, |s|);
    var i :| 0 <= i < |JsSlice(s, a, b)| && JsSlice(s, a, b)[i] == x;
    assert s[lo + i] == x;
  }

  /** Sorting keeps the same requests and their number. */
  lemma SortMatchesMembers(f: seq<Kyc>, sort: string)
    ensures |SortMatches(f, sort)| == |f|
    ensures forall x :: x in SortMatches(f, sort) <==> x in f
  {
    var m := SortMatches(f, sort);
    SortMatchesOrder(f, sort);
    assert |m| == |multiset(m)| == |multiset(f)| == |f|;
    forall x
      ensures x in m <==> x in f
    {
      assert x in m <==> x in multiset(m);
      assert x in f <==> x in multiset(f);
    }
  }

  lemma PaginateMember(m: seq<Kyc>, page: int, limit: int, x: Kyc)
    requires limit != 0 && x in Paginate(m, page, limit).results
    ensures x in m
  {
    var start := (page - 1) * limit;
    SliceMember(m, start, start + limit, x);
  }

  /** Every result is a stored request that passes every given filter,
      `totalResults` counts exactly the requests that pass, and every one of
      them is among the sorted matches. */
  lemma GetAllFilters(recs: seq<Kyc>, q: Params)
    ensures forall x :: x in GetAll(recs, q).results ==> x in recs && Selected(q, x)
    ensures GetAll(recs, q).totalResults == |Filter(recs, q)|
    ensures forall x :: x in recs && Selected(q, x) ==> x in SortMatches(Filter(recs, q), q.sort)
  {
    var f := Filter(recs, q);
    var m := SortMatches(f, q.sort);
    var page := IntOr(q.page, 1);
    var limit := IntOr(q.limit, 10);
    assert GetAll(recs, q) == Paginate(m, page, limit);
    SortMatchesMembers(f, q.sort);
    forall x | x in Paginate(m, page, limit).results
      ensures x in recs && Selected(q, x)
    {
      PaginateMember(m, page, limit, x);
    }
    forall x | x in recs && Selected(q, x)
      ensures x in m
    {
      FilterComplete(recs, q, x);
    }
  }

  /** An absent page or limit defaults to 1 and 10; `IntOr` states the
      `parseInt(...) || d` rule behind the defaults. */
  lemma GetAllPages(recs: seq<Kyc>, q: Params)
    ensures q.page == "" ==> GetAll(recs, q).page == 1
    ensures q.limit == "" ==> GetAll(recs, q).limit == 10
  {
    IntOrEmpty(1);
    IntOrEmpty(10);
  }

  lemma IntOrEmpty(d: int)
    requires d != 0
    ensures IntOr("", d) == d
  {
    assert TrimStart("") == "";
    assert DigitRun("", 10) == 0;
  }

  /** For a positive page and limit the results are the matches from
      `start = (page-1)*limit` up to `start + limit` (which is
      `page*limit`), so never more than `limit`, and `totalPages` is the
      least page count that holds every match. */
  lemma PaginateWindow(m: seq<Kyc>, page: int, limit: int)
    requires limit != 0
    ensures var l := Paginate(m, page, limit); var start := (page - 1) * limit;
      l.page == page && l.limit == limit && l.totalResults == |m| &&
      start + limit == page * limit &&
      (page >= 1 && limit >= 1 ==>
        0 <= start &&
        l.results == m[SliceBound(start, |m|)..SliceBound(start + limit, |m|)] &&
        |l.results| <= limit &&
        (l.totalPages - 1) * limit < |m| <= l.totalPages * limit)
  {
    var start := (page - 1) * limit;
    assert start + limit == page * limit;
    if page >= 1 && limit >= 1 {
      assert 0 <= start;
    }
  }

  // ------------------------------------------------------------ dashboard

  /** The tests behind the dashboard counters' `filter(...).length`. */
  function HasStatus(status: string): Kyc -> bool {
    (r: Kyc) => r.status == status
  }

  function HasType(t: string): Kyc -> bool {
    (r: Kyc) => r.verificationType == t
  }

  function HasGender(g: string): Kyc -> bool {
    (r: Kyc) => r.nationalId.Some? && r.nationalId.value.gender == g
  }

  /** The requests with the given status: `filter(...).length`. */
  function CountStatus(recs: seq<Kyc>, status: string): (n: nat)
    ensures n <= |recs|
    ensures n == |Lists.Keep(recs, HasStatus(status))|
  {
    if recs == [] then 0
    else
      var k := |recs| - 1;
      CountStatus(recs[..k], status) + (if recs[k].status == status then 1 else 0)
  }

  function CountType(recs: seq<Kyc>, t: string): (n: nat)
    ensures n <= |recs|
    ensures n == |Lists.Keep(recs, HasType(t))|
  {
    if recs == [] then 0
    else
      var k := |recs| - 1;
      CountType(recs[..k], t) + (if recs[k].verificationType == t then 1 else 0)
  }

  function CountGender(recs: seq<Kyc>, g: string): (n: nat)
    ensures n <= |recs|
    ensures n == |Lists.Keep(recs, HasGender(g))|
  {
    if recs == [] then 0
    else
      var k := |recs| - 1;
      CountGender(recs[..k], g) + (if recs[k].nationalId.Some? && recs[k].nationalId.value.gender == g then 1 else 0)
  }

  /** Distinct statuses are counted apart, so the three counts never add up
      to more than the number of requests. */
  lemma {:induction false} StatusCountsBounded(recs: seq<Kyc>)
    ensures CountStatus(recs, "pending") + CountStatus(recs, "approved") + CountStatus(recs, "rejected") <= |recs|
  {
    if recs != [] {
      StatusCountsBounded(recs[..|recs| - 1]);
    }
  }

  /** `currentYear - birthYear`, when the card has a readable date of birth. */
  function AgeOf(r: Kyc, currentYear: int): Option<int> {
    if r.nationalId.Some? && r.nationalId.value.birthYear.Some? then
      Some(currentYear - r.nationalId.value.birthYear.value)
    else None
  }

  datatype AgeBuckets = AgeBuckets(young: nat, early: nat, middle: nat, senior: nat) {
    function Total(): nat { young + early + middle + senior }
  }

  /** The `ageDistribution` increment for one age: 18-25, 26-35, 36-45,
      46 and over; under 18 counts nowhere. */
  function Bucket(b: AgeBuckets, age: int): AgeBuckets {
    if 18 <= age <= 25 then b.(young := b.young + 1)
    else if 26 <= age <= 35 then b.(early := b.early + 1)
    else if 36 <= age <= 45 then b.(middle := b.middle + 1)
    else if age >= 46 then b.(senior := b.senior + 1)
    else b
  }

  function AgeTally(recs: seq<Kyc>, currentYear: int): AgeBuckets {
    if recs == [] then AgeBuckets(0, 0, 0, 0)
    else
      var k := |recs| - 1;
      var b := AgeTally(recs[..k], currentYear);
      match AgeOf(recs[k], currentYear)
      case None => b
      case Some(age) => Bucket(b, age)
  }

  /** A holder aged 18 or more. */
  function IsAdult(currentYear: int): Kyc -> bool {
    r => AgeOf(r, currentYear).Some? && AgeOf(r, currentYear).value >= 18
  }

  /** The requests whose holder is at least 18. */
  function CountAdults(recs: seq<Kyc>, currentYear: int): (n: nat)
    ensures n <= |recs|
    ensures n == |Lists.Keep(recs, IsAdult(currentYear))|
  {
    if recs == [] then 0
    else
      var k := |recs| - 1;
      CountAdults(recs[..k], currentYear) +
        (if AgeOf(recs[k], currentYear).Some? && AgeOf(recs[k], currentYear).value >= 18 then 1 else 0)
  }

  /** The four age buckets together count exactly the holders aged 18 or
      more, so never more than the requests. */
  lemma {:induction false} AgeBucketsCountAdults(recs: seq<Kyc>, currentYear: int)
    ensures AgeTally(recs, currentYear).Total() == CountAdults(recs, currentYear) <= |recs|
  {
    if recs != [] {
      AgeBucketsCountAdults(recs[..|recs| - 1], currentYear);
    }
  }

  /** `districtOfBirth`, "" when there is no card. */
  function DistrictOf(r: Kyc): string {
    if r.nationalId.Some? then r.nationalId.value.district else ""
  }

  /** One count per district: `districtData[district]++`, or 1 the first
      time; an empty district is skipped. */
  function Tally(recs: seq<Kyc>): map<string, nat> {
    if recs == [] then map[]
    else
      var k := |recs| - 1;
      var t := Tally(recs[..k]);
      var d := DistrictOf(recs[k]);
      if d == "" then t
      else if d in t then t[d := t[d] + 1]
      else t[d := 1]
  }

  /** The requests born in district `d`. */
  function CountDistrict(recs: seq<Kyc>, d: string): nat {
    if recs == [] then 0
    else
      var k := |recs| - 1;
      CountDistrict(recs[..k], d) + (if DistrictOf(recs[k]) == d then 1 else 0)
  }

  /** A request with a district of birth. */
  function HasDistrict(): Kyc -> bool {
    r => DistrictOf(r) != ""
  }

  /** The requests with any district at all. */
  function CountWithDistrict(recs: seq<Kyc>): (n: nat)
    ensures n <= |recs|
    ensures n == |Lists.Keep(recs, HasDistrict())|
  {
    if recs == [] then 0
    else
      var k := |recs| - 1;
      CountWithDistrict(recs[..k]) + (if DistrictOf(recs[k]) != "" then 1 else 0)
  }

  /** The tally has a key for exactly the non-empty districts that occur,
      and the key's count is the number of requests from that district. */
  lemma {:induction false} TallyCounts(recs: seq<Kyc>)
    ensures forall d :: d in Tally(recs) <==> d != "" && CountDistrict(recs, d) > 0
    ensures forall d :: d in Tally(recs) ==> Tally(recs)[d] == CountDistrict(recs, d)
  {
    if recs != [] {
      TallyCounts(recs[..|recs| - 1]);
    }
  }

  /** The sum of the counts in `m` for the keys `ks`. */
  ghost function SumOver(m: map<string, nat>, ks: set<string>): nat
    requires ks <= m.Keys
    decreases ks
  {
    if ks == {} then 0
    else
      var k :| k in ks;
      m[k] + SumOver(m, ks - {k})
  }

  lemma {:induction false} SumOverRemove(m: map<string, nat>, ks: set<string>, k: string)
    requires ks <= m.Keys && k in ks
    ensures SumOver(m, ks) == m[k] + SumOver(m, ks - {k})
    decreases ks
  {
    var j :| j in ks && SumOver(m, ks) == m[j] + SumOver(m, ks - {j});
    if j != k {
      SumOverRemove(m, ks - {j}, k);
      SumOverRemove(m, ks - {k}, j);
      assert ks - {j} - {k} == ks - {k} - {j};
    }
  }

  lemma {:induction false} SumOverAgree(m1: map<string, nat>, m2: map<string, nat>, ks: set<string>)
    requires ks <= m1.Keys && ks <= m2.Keys
    requires forall k :: k in ks ==> m1[k] == m2[k]
    ensures SumOver(m1, ks) == SumOver(m2, ks)
    decreases ks
  {
    if ks != {} {
      var k :| k in ks && SumOver(m1, ks) == m1[k] + SumOver(m1, ks - {k});
      SumOverRemove(m2, ks, k);
      SumOverAgree(m1, m2, ks - {k});
    }
  }

  /** Adding one to a count, or a new count of one, adds one to the sum. */
  lemma TallyStepSum(t: map<string, nat>, d: string)
    ensures var t2 := if d in t then t[d := t[d] + 1] else t[d := 1];
      SumOver(t2, t2.Keys) == SumOver(t, t.Keys) + 1
  {
    var t2 := if d in t then t[d := t[d] + 1] else t[d := 1];
    SumOverRemove(t2, t2.Keys, d);
    assert t2.Keys - {d} == t.Keys - {d};
    SumOverAgree(t2, t, t.Keys - {d});
    if d in t {
      SumOverRemove(t, t.Keys, d);
    } else {
      assert t.Keys - {d} == t.Keys;
    }
  }

  /** The district counts add up to the number of requests that have a
      district. */
  lemma {:induction false} TallySum(recs: seq<Kyc>)
    ensures SumOver(Tally(recs), Tally(recs).Keys) == CountWithDistrict(recs)
  {
    if recs != [] {
      var k := |recs| - 1;
      TallySum(recs[..k]);
      var d := DistrictOf(recs[k]);
      if d != "" {
        TallyStepSum(Tally(recs[..k]), d);
      }
    }
  }

  /** The counters `getDashboardStats` derives from the requests. */
  datatype Stats = Stats(
    totalRequests: nat,
    pendingRequests: nat,
    approvedRequests: nat,
    rejectedRequests: nat,
    idCard: nat,
    ages: AgeBuckets,
    male: nat,
    female: nat,
    districts: map<string, nat>)

  function StatsOf(recs: seq<Kyc>, currentYear: int): Stats {
    Stats(|recs|, CountStatus(recs, "pending"), CountStatus(recs, "approved"), CountStatus(recs, "rejected"),
      CountType(recs, "idCard"), AgeTally(recs, currentYear), CountGender(recs, "MALE"), CountGender(recs, "FEMALE"),
      Tally(recs))
  }

  // ---------------------------------------------------------------- store

  const NotFound: string := "KYC record not found"

  /** The position of the first request with that id. */
  function FindIndex(recs: seq<Kyc>, id: string): (r: Option<nat>)
    ensures r.Some? ==> r.value < |recs| && recs[r.value].id == id
    ensures r.Some? ==> forall j :: 0 <= j < r.value ==> recs[j].id != id
    ensures r.None? ==> forall j :: 0 <= j < |recs| ==> recs[j].id != id
  {
    if recs == [] then None
    else if recs[0].id == id then Some(0)
    else
      match FindIndex(recs[1..], id)
      case None => None
      case Some(i) => Some(i + 1)
  }

  /** The stored requests, which `updateStatus` edits in place. */
  class KycStore {
    var records: seq<Kyc>

    constructor (initial: seq<Kyc>)
      ensures records == initial
    {
      records := initial;
    }

    /** `kycService.getById`: the first request with that id, or the error. */
    function GetById(id: string): (r: Result<Kyc>)
      reads this
      ensures r.Ok? <==> exists j :: 0 <= j < |records| && records[j].id == id
      ensures r.Ok? ==> r.value.id == id && r.value in records
      ensures r.Ok? ==>
        exists j :: 0 <= j < |records| && records[j] == r.value && forall i :: 0 <= i < j ==> records[i].id != id
      ensures r.Err? ==> r.message == NotFound
    {
      match FindIndex(records, id)
      case None => Err(NotFound)
      case Some(i) => Ok(records[i])
    }

    /** `kycService.updateStatus`: an unknown id throws and keeps the store;
        otherwise the first request with that id gets the new status,
        remarks and update time, and nothing else changes. */
    method UpdateStatus(id: string, status: string, remarks: string, now: int) returns (r: Result<Kyc>)
      modifies this
      ensures FindIndex(old(records), id).None? ==> records == old(records) && r == Err(NotFound)
      ensures FindIndex(old(records), id).Some? ==>
        var i := FindIndex(old(records), id).value;
        records == old(records)[i := old(records)[i].(status := status, remarks := remarks, updatedAt := now)] &&
        r == Ok(records[i])
    {
      var idx := FindIndex(records, id);
      if idx.None? {
        return Err(NotFound);
      }
      var i := idx.value;
      records := records[i := records[i].(status := status, remarks := remarks, updatedAt := now)];
      r := Ok(records[i]);
    }

    /** `analyticsService.getDashboardStats`, the counters that come from
        the records; the age and district counters are built by loops. */
    method DashboardStats(currentYear: int) returns (s: Stats)
      ensures s == StatsOf(records, currentYear)
    {
      var ages := AgeBuckets(0, 0, 0, 0);
      for i := 0 to |records|
        invariant ages == AgeTally(records[..i], currentYear)
      {
        assert records[..i + 1][..i] == records[..i];
        var age := AgeOf(records[i], currentYear);
        if age.Some? {
          var a := age.value;
          if 18 <= a <= 25 {
            ages := ages.(young := ages.young + 1);
          } else if 26 <= a <= 35 {
            ages := ages.(early := ages.early + 1);
          } else if 36 <= a <= 45 {
            ages := ages.(middle := ages.middle + 1);
          } else if a >= 46 {
            ages := ages.(senior := ages.senior + 1);
          }
        }
      }
      var districts: map<string, nat> := map[];
      for i := 0 to |records|
        invariant districts == Tally(records[..i])
      {
        assert records[..i + 1][..i] == records[..i];
        var d := DistrictOf(records[i]);
        if d != "" {
          if d in districts {
            districts := districts[d := districts[d] + 1];
          } else {
            districts := districts[d := 1];
          }
        }
      }
      assert records[..|records|] == records;
      s := Stats(|records|, CountStatus(records, "pending"), CountStatus(records, "approved"),
        CountStatus(records, "rejected"), CountType(records, "idCard"), ages,
        CountGender(records, "MALE"), CountGender(records, "FEMALE"), districts);
    }
  }
}
