/** The ministry and agency screen: a searchable list of entities with an
    add/edit form, deletion, and the staff totals in its header. */
module MinistryManagement {
  import opened Wrappers
  import opened Text
  import opened Lists
  import opened Records

  /** The eight inputs of the add/edit form. */
  datatype MinistryForm = MinistryForm(
    name: string,
    code: string,
    kind: string,
    contactPerson: string,
    email: string,
    phone: string,
    address: string,
    description: string)

  /** The `name` attribute of the input that changed. */
  datatype FormField = Name | Code | Kind | ContactPerson | Email | Phone | Address | Description

  /** What "Add New Ministry/Agency" puts in the form. */
  const EmptyForm := MinistryForm("", "", "ministry", "", "", "", "", "")

  /** `handleInputChange`: the one input changes. */
  function SetField(f: MinistryForm, field: FormField, value: string): MinistryForm {
    match field
    case Name => f.(name := value)
    case Code => f.(code := value)
    case Kind => f.(kind := value)
    case ContactPerson => f.(contactPerson := value)
    case Email => f.(email := value)
    case Phone => f.(phone := value)
    case Address => f.(address := value)
    case Description => f.(description := value)
  }

  function FieldOf(f: MinistryForm, field: FormField): string {
    match field
    case Name => f.name
    case Code => f.code
    case Kind => f.kind
    case ContactPerson => f.contactPerson
    case Email => f.email
    case Phone => f.phone
    case Address => f.address
    case Description => f.description
  }

  /** An input change sets that input and leaves the other seven alone. */
  lemma SetFieldOnly(f: MinistryForm, field: FormField, value: string)
    ensures FieldOf(SetField(f, field, value), field) == value
    ensures forall g: FormField :: g != field ==> FieldOf(SetField(f, field, value), g) == FieldOf(f, g)
  {
  }

  /** The six inputs marked `required`, which the browser will not submit
      empty. */
  predicate FormComplete(f: MinistryForm) {
    f.name != "" && f.code != "" && f.kind != "" && f.contactPerson != "" && f.email != "" && f.phone != ""
  }

  /** `handleEditMinistry`: the form filled from an entry. */
  function FormOf(m: Ministry): MinistryForm {
    MinistryForm(m.name, m.code, m.kind, m.contactPerson, m.email, m.phone, m.address, m.description)
  }

  /** `{ ...m, ...formData }`: the form's eight fields over the entry. */
  function Merge(m: Ministry, f: MinistryForm): (r: Ministry)
    ensures FormOf(r) == f
    ensures r.id == m.id && r.staffCount == m.staffCount && r.verifiedStaff == m.verifiedStaff && r.createdAt == m.createdAt
  {
    m.(name := f.name, code := f.code, kind := f.kind, contactPerson := f.contactPerson,
       email := f.email, phone := f.phone, address := f.address, description := f.description)
  }

  /** Saving the edit form unchanged leaves the entry as it was. */
  lemma MergeFormOf(m: Ministry)
    ensures Merge(m, FormOf(m)) == m
  {
  }

  /** The new entry of the add form: the clock `now` as its id, no staff yet
      and today's date. */
  function NewMinistry(f: MinistryForm, now: int, today: string): (r: Ministry)
    ensures FormOf(r) == f
    ensures r.id == now && r.staffCount == 0 && r.verifiedStaff == 0 && r.createdAt == today
  {
    Ministry(now, f.name, f.code, f.kind, f.contactPerson, f.email, f.phone, f.address, f.description, 0, 0, today)
  }

  // -------------------------------------------------------------- the list

  /** The search box: a case-insensitive match on name, code or type. */
  predicate MatchesSearch(m: Ministry, term: string) {
    ContainsIgnoringCase(m.name, term) || ContainsIgnoringCase(m.code, term) || ContainsIgnoringCase(m.kind, term)
  }

  /** `filteredMinistries` */
  function FilterMinistries(ms: seq<Ministry>, term: string): seq<Ministry> {
    Keep(ms, (m: Ministry) => MatchesSearch(m, term))
  }

  /** An entry is shown exactly when its name, code or type contains the
      term, in list order; the empty term shows all. */
  lemma FilterMinistriesExactly(ms: seq<Ministry>, term: string)
    ensures forall i :: 0 <= i < |ms| ==> (ms[i] in FilterMinistries(ms, term) <==> MatchesSearch(ms[i], term))
    ensures FilterMinistries(ms, "") == ms
  {
    var f := FilterMinistries(ms, term);
    KeepMembers(ms, (m: Ministry) => MatchesSearch(m, term));
    forall i | 0 <= i < |ms| && ms[i] in f ensures MatchesSearch(ms[i], term) {
      var j :| 0 <= j < |f| && f[j] == ms[i];
    }
    forall i | 0 <= i < |ms| ensures MatchesSearch(ms[i], "") {
      assert ToLower("") == "";
      assert StartsWith(ToLower(ms[i].name), "");
    }
    KeepAllOrNone(ms, (m: Ministry) => MatchesSearch(m, ""));
  }

  /** A confirmed `handleDeleteMinistry(id)`. */
  function Delete(ms: seq<Ministry>, id: int): seq<Ministry> {
    Keep(ms, (m: Ministry) => m.id != id)
  }

  /** Deleting removes every entry with that id and keeps each other one,
      as often as it occurs; an id no entry has changes nothing. */
  lemma DeleteExactly(ms: seq<Ministry>, id: int)
    ensures forall i :: 0 <= i < |Delete(ms, id)| ==> Delete(ms, id)[i].id != id
    ensures forall i :: 0 <= i < |ms| && ms[i].id != id ==> ms[i] in Delete(ms, id)
    ensures forall m :: multiset(Delete(ms, id))[m] == if m.id != id then multiset(ms)[m] else 0
    ensures |Delete(ms, id)| + Count(ms, (m: Ministry) => m.id == id) == |ms|
    ensures (forall i :: 0 <= i < |ms| ==> ms[i].id != id) ==> Delete(ms, id) == ms
  {
    DeleteCount(ms, id);
    KeepMembers(ms, (m: Ministry) => m.id != id);
    KeepAllOrNone(ms, (m: Ministry) => m.id != id);
  }

  /** Deleting from two parts of the list deletes from each, so the entries
      that stay keep their order; a single entry stays exactly when its id
      differs. */
  lemma DeleteAppend(a: seq<Ministry>, b: seq<Ministry>, id: int)
    ensures Delete(a + b, id) == Delete(a, id) + Delete(b, id)
    ensures forall m: Ministry :: Delete([m], id) == if m.id != id then [m] else []
  {
    KeepAppend(a, b, (m: Ministry) => m.id != id);
    forall m: Ministry
      ensures Delete([m], id) == if m.id != id then [m] else []
    {
      KeepOne(m, (m: Ministry) => m.id != id);
    }
  }

  lemma {:induction false} DeleteCount(ms: seq<Ministry>, id: int)
    ensures |Delete(ms, id)| + Count(ms, (m: Ministry) => m.id == id) == |ms|
  {
    if ms != [] {
      var n := |ms| - 1;
      DeleteCount(ms[..n], id);
    }
  }

  /** Saving the edit form: every entry with the selected id gets the form's
      fields, the others stay as they were. */
  function ApplyEdit(ms: seq<Ministry>, id: int, f: MinistryForm): (r: seq<Ministry>)
    ensures |r| == |ms|
    ensures forall i :: 0 <= i < |ms| && ms[i].id == id ==> r[i] == Merge(ms[i], f)
    ensures forall i :: 0 <= i < |ms| && ms[i].id != id ==> r[i] == ms[i]
  {
    seq(|ms|, i requires 0 <= i < |ms| => if ms[i].id == id then Merge(ms[i], f) else ms[i])
  }

  // ---------------------------------------------------------------- totals

  /** "Total Staff": the sum of `staffCount` over all entries. */
  function TotalStaff(ms: seq<Ministry>): int {
    if ms == [] then 0 else TotalStaff(ms[..|ms| - 1]) + ms[|ms| - 1].staffCount
  }

  /** "Verified Staff": the sum of `verifiedStaff` over all entries. */
  function TotalVerified(ms: seq<Ministry>): int {
    if ms == [] then 0 else TotalVerified(ms[..|ms| - 1]) + ms[|ms| - 1].verifiedStaff
  }

  lemma {:induction false} TotalsAppend(a: seq<Ministry>, b: seq<Ministry>)
    ensures TotalStaff(a + b) == TotalStaff(a) + TotalStaff(b)
    ensures TotalVerified(a + b) == TotalVerified(a) + TotalVerified(b)
    decreases |b|
  {
    if b == [] {
      assert a + b == a;
    } else {
      var n := |b| - 1;
      assert (a + b)[..|a + b| - 1] == a + b[..n];
      TotalsAppend(a, b[..n]);
    }
  }

  /** A new entry counts no staff, so adding one leaves both totals as they
      were. */
  lemma CreateKeepsTotals(ms: seq<Ministry>, f: MinistryForm, now: int, today: string)
    ensures TotalStaff(ms + [NewMinistry(f, now, today)]) == TotalStaff(ms)
    ensures TotalVerified(ms + [NewMinistry(f, now, today)]) == TotalVerified(ms)
  {
    assert (ms + [NewMinistry(f, now, today)])[..|ms|] == ms;
  }

  /** The form holds no counts, so an edit leaves both totals as they were. */
  lemma {:induction false} EditKeepsTotals(ms: seq<Ministry>, id: int, f: MinistryForm)
    ensures TotalStaff(ApplyEdit(ms, id, f)) == TotalStaff(ms)
    ensures TotalVerified(ApplyEdit(ms, id, f)) == TotalVerified(ms)
  {
    if ms != [] {
      var n := |ms| - 1;
      assert ApplyEdit(ms, id, f)[..n] == ApplyEdit(ms[..n], id, f);
      EditKeepsTotals(ms[..n], id, f);
    }
  }

  /** `getVerificationRate` before `toFixed(1)`: a percentage, or 0 when the
      entry counts no staff. */
  function VerificationRate(m: Ministry): (r: real)
    ensures m.staffCount == 0 ==> r == 0.0
    ensures 0 <= m.verifiedStaff <= m.staffCount ==> 0.0 <= r <= 100.0
  {
    if m.staffCount != 0 then
      var v := m.verifiedStaff as real;
      var s := m.staffCount as real;
      assert 0 <= m.verifiedStaff <= m.staffCount ==> v / s <= 1.0 by {
        if 0 <= m.verifiedStaff <= m.staffCount {
          assert v / s <= s / s;
          assert s / s == 1.0;
        }
      }
      (v / s) * 100.0
    else 0.0
  }

  // -------------------------------------------------------------- the screen

  class MinistryScreen {
    var ministries: seq<Ministry>
    var searchTerm: string
    var showAddModal: bool
    var showEditModal: bool
    var selected: Option<Ministry>
    var form: MinistryForm

    /** The edit form is open only with an entry selected. */
    predicate Valid()
      reads this
    {
      showEditModal ==> selected.Some?
    }

    /** The screen once the list is loaded. */
    constructor (loaded: seq<Ministry>)
      ensures Valid()
      ensures ministries == loaded && searchTerm == "" && !showAddModal && !showEditModal
      ensures selected == None && form == MinistryForm("", "", "ministry", "", "", "", "", "")
    {
      ministries := loaded;
      searchTerm := "";
      showAddModal := false;
      showEditModal := false;
      selected := None;
      form := EmptyForm;
    }

    function Shown(): seq<Ministry>
      reads this
    {
      FilterMinistries(ministries, searchTerm)
    }

    method Search(term: string)
      requires Valid()
      modifies this`searchTerm
      ensures Valid() && searchTerm == term
    {
      searchTerm := term;
    }

    /** `handleAddMinistry`: a fresh form in the add dialog. */
    method AddMinistry()
      requires Valid()
      modifies this`form, this`showAddModal
      ensures Valid()
      ensures form == EmptyForm && showAddModal
    {
      form := EmptyForm;
      showAddModal := true;
    }

    /** `handleEditMinistry(m)`: the entry selected and its fields in the
        edit dialog. */
    method EditMinistry(m: Ministry)
      requires Valid()
      modifies this`form, this`showEditModal, this`selected
      ensures Valid()
      ensures selected == Some(m) && form == FormOf(m) && showEditModal
    {
      selected := Some(m);
      form := FormOf(m);
      showEditModal := true;
    }

    /** `handleDeleteMinistry(id)` with the answer of the confirmation box. */
    method DeleteMinistry(id: int, confirmed: bool)
      requires Valid()
      modifies this`ministries
      ensures Valid()
      ensures ministries == if confirmed then Delete(old(ministries), id) else old(ministries)
    {
      if confirmed {
        ministries := Delete(ministries, id);
      }
    }

    /** `handleInputChange` */
    method InputChange(field: FormField, value: string)
      requires Valid()
      modifies this`form
      ensures Valid()
      ensures form == SetField(old(form), field, value)
    {
      form := SetField(form, field, value);
    }

    /** `handleSubmit`, with the clock `now` and today's date: the edit
        dialog updates the selected entry, otherwise a new entry is
        appended. */
    method Submit(now: int, today: string)
      requires Valid()
      modifies this
      ensures Valid()
      ensures old(showEditModal) ==>
        ministries == ApplyEdit(old(ministries), old(selected).value.id, old(form)) &&
        !showEditModal && showAddModal == old(showAddModal)
      ensures !old(showEditModal) ==>
        ministries == old(ministries) + [NewMinistry(old(form), now, today)] &&
        !showAddModal && !showEditModal
      ensures searchTerm == old(searchTerm) && selected == old(selected) && form == old(form)
    {
      if showEditModal {
        ministries := ApplyEdit(ministries, selected.value.id, form);
        showEditModal := false;
      } else {
        ministries := ministries + [NewMinistry(form, now, today)];
        showAddModal := false;
      }
    }

    /** The save button: the browser submits only a form whose required
        inputs are filled in. */
    method ClickSave(now: int, today: string)
      requires Valid()
      modifies this
      ensures Valid()
      ensures !FormComplete(old(form)) ==> unchanged(this)
      ensures FormComplete(old(form)) && !old(showEditModal) ==>
        ministries == old(ministries) + [NewMinistry(old(form), now, today)]
      ensures FormComplete(old(form)) && old(showEditModal) ==>
        ministries == ApplyEdit(old(ministries), old(selected).value.id, old(form))
    {
      if FormComplete(form) {
        Submit(now, today);
      }
    }

    /** `closeModal` */
    method CloseModal()
      requires Valid()
      modifies this`showAddModal, this`showEditModal, this`selected
      ensures Valid()
      ensures !showAddModal && !showEditModal && selected == None
    {
      showAddModal := false;
      showEditModal := false;
      selected := None;
    }
  }
}
