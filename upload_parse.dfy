/** The first half of the bulk staff upload (src/components/Upload/BulkUpload.js):
    the eleven fields a staff record needs, turning the text of a CSV file
    into rows, and guessing which column holds which field. */
module UploadParse {
  import opened Wrappers
  import opened Text
  import opened Lists

  /** The record keys of the eleven fields. */
  datatype Key = NationalId | PayrollNumber | KraPin | NssfNumber | ShifNumber
    | FirstName | LastName | Email | Phone | JobTitle | Department

  /** The key as the record spells it. */
  function KeyName(k: Key): string {
    match k
    case NationalId => "nationalId"
    case PayrollNumber => "payrollNumber"
    case KraPin => "kraPin"
    case NssfNumber => "nssfNumber"
    case ShifNumber => "shifNumber"
    case FirstName => "firstName"
    case LastName => "lastName"
    case Email => "email"
    case Phone => "phone"
    case JobTitle => "jobTitle"
    case Department => "department"
  }

  /** The label of a field without its trailing required marker. */
  function Stem(k: Key): string {
    match k
    case NationalId => "National ID"
    case PayrollNumber => "Payroll/PF Number"
    case KraPin => "KRA PIN Number"
    case NssfNumber => "NSSF Number"
    case ShifNumber => "SHIF Number"
    case FirstName => "First Name"
    case LastName => "Last Name"
    case Email => "Email Address"
    case Phone => "Mobile Phone"
    case JobTitle => "Job Title"
    case Department => "Department"
  }

  /** One entry of the field list: the record key, the label shown to the
      user (with its trailing ` *`) and whether a value is required. */
  datatype Field = Field(key: Key, caption: string, required: bool)

  function FieldOf(k: Key): Field {
    Field(k, Stem(k) + " *", true)
  }

  const Fields: seq<Field> := [
    FieldOf(NationalId), FieldOf(PayrollNumber), FieldOf(KraPin), FieldOf(NssfNumber),
    FieldOf(ShifNumber), FieldOf(FirstName), FieldOf(LastName), FieldOf(Email),
    FieldOf(Phone), FieldOf(JobTitle), FieldOf(Department)
  ]

  /** At most this many data rows are kept from one file. */
  const MaxRows: nat := 100

  /** The cells of one row, keyed by column header. */
  type Cells = map<string, string>

  /** The key the row object starts with, holding the row's line number. */
  const IndexKey: string := "rowIndex"

  /** The value of `row.rowIndex`. The row object keeps the line number and
      the cells under one set of keys, so a column that is itself called
      `rowIndex` writes its cell text over the number. */
  datatype Tag = Line(n: int) | CellText(s: string)

  /** A parsed data row: its `rowIndex` and its cells. */
  datatype Row = Row(rowIndex: Tag, cells: Cells)

  /** What reading a file yields: its headers, its rows and the guessed
      field-to-column mapping. */
  datatype Parsed = Parsed(headers: seq<string>, rows: seq<Row>, mapping: map<Key, string>)

  /** The position of a key in the field list. */
  function Rank(k: Key): nat {
    match k
    case NationalId => 0
    case PayrollNumber => 1
    case KraPin => 2
    case NssfNumber => 3
    case ShifNumber => 4
    case FirstName => 5
    case LastName => 6
    case Email => 7
    case Phone => 8
    case JobTitle => 9
    case Department => 10
  }

  /** Every key has exactly one field, at its rank. */
  lemma FieldsWellFormed()
    ensures |Fields| == 11
    ensures forall k: Key :: Rank(k) < |Fields| && Fields[Rank(k)].key == k
    ensures forall i :: 0 <= i < |Fields| ==> Rank(Fields[i].key) == i && Fields[i] == FieldOf(Fields[i].key)
  {
    forall i | 0 <= i < |Fields|
      ensures Rank(Fields[i].key) == i && Fields[i] == FieldOf(Fields[i].key)
    {
      if i == 0 {} else if i == 1 {} else if i == 2 {} else if i == 3 {} else if i == 4 {}
      else if i == 5 {} else if i == 6 {} else if i == 7 {} else if i == 8 {} else if i == 9 {}
      else {}
    }
  }

  /** Distinct keys have distinct labels, so the messages that name a label
      name one field. */
  lemma StemInjective(a: Key, b: Key)
    ensures Stem(a) == Stem(b) ==> a == b
  {
  }

  // ------------------------------------------------------------- reading

  function Min(a: int, b: int): int { if a < b then a else b }

  /** A header or cell as stored: trimmed, with every `"` removed. */
  function Clean(c: string): string {
    RemoveAll(Trim(c), '"')
  }

  /** A line cut at every comma, each piece cleaned. */
  function CleanCells(line: string): (cells: seq<string>)
    ensures |cells| == |Split(line, ',')| >= 1
    ensures forall i :: 0 <= i < |cells| ==> cells[i] == Clean(Split(line, ',')[i])
    ensures forall i :: 0 <= i < |cells| ==> '"' !in cells[i]
  {
    var parts := Split(line, ',');
    seq(|parts|, i requires 0 <= i < |parts| => Clean(parts[i]))
  }

  /** A cell that a writer without quoting can put on a line and get back:
      no comma, no `"` and no white space at either end. */
  predicate PlainCell(c: string) {
    ',' !in c && '"' !in c && Trim(c) == c
  }

  /** A line made by joining plain cells with commas reads back as exactly
      those cells. */
  lemma CleanCellsReadBack(cells: seq<string>)
    requires |cells| >= 1
    requires forall i :: 0 <= i < |cells| ==> PlainCell(cells[i])
    ensures CleanCells(Join(cells, ",")) == cells
  {
    AllPlain(cells);
    SplitJoin(cells, ',');
    CleanCellsOf(Join(cells, ","), cells);
  }

  lemma CleanCellsOf(line: string, parts: seq<string>)
    requires Split(line, ',') == parts
    requires forall i :: 0 <= i < |parts| ==> Clean(parts[i]) == parts[i]
    ensures CleanCells(line) == parts
  {
  }

  lemma AllPlain(cells: seq<string>)
    requires forall i :: 0 <= i < |cells| ==> PlainCell(cells[i])
    ensures forall i :: 0 <= i < |cells| ==> ',' !in cells[i] && Clean(cells[i]) == cells[i]
  {
    forall i | 0 <= i < |cells|
      ensures Clean(cells[i]) == cells[i]
    {
      RemoveAbsent(cells[i], '"');
    }
  }

  /** Quotes are removed only after trimming, so whatever a pair of quotes
      encloses is kept as it is, white space at its ends included: `" a"`
      reads as ` a`. */
  lemma QuotedSpaceKept(s: string)
    requires ',' !in s && '"' !in s
    ensures CleanCells("\"" + s + "\"") == [s]
  {
    var q := "\"" + s + "\"";
    SplitNoSeparator(q, ',');
    assert TrimStart(q) == q;
    assert TrimEnd(q) == q;
    assert q[1..] == s + "\"";
    RemoveTrailing(s, '"');
    assert RemoveAll(q, '"') == s;
  }

  /** A line that is not all white space. */
  predicate Filled(l: string) {
    Trim(l) != ""
  }

  /** The lines that are not all white space, in file order. */
  function NonBlank(lines: seq<string>): (r: seq<string>)
    ensures |r| <= |lines|
    ensures forall i :: 0 <= i < |r| ==> Trim(r[i]) != ""
  {
    Keep(lines, Filled)
  }

  /** Exactly the lines that are not blank survive. */
  lemma NonBlankExactly(lines: seq<string>)
    ensures forall i :: 0 <= i < |lines| && Trim(lines[i]) != "" ==> lines[i] in NonBlank(lines)
    ensures forall i :: 0 <= i < |NonBlank(lines)| ==> NonBlank(lines)[i] in lines
  {
    KeepMembers(lines, Filled);
  }


  /** `values[i] || ''`: the cell under the `i`-th header, empty when the line
      has fewer cells. */
  function CellAt(values: seq<string>, i: nat): string {
    if i < |values| then values[i] else ""
  }

  /** The row object built by assigning every header its cell in turn; it
      has one entry per header name. */
  function RowCells(headers: seq<string>, values: seq<string>): (cells: Cells)
    ensures forall h :: h in cells <==> h in headers
  {
    if headers == [] then map[]
    else
      var n := |headers| - 1;
      assert forall h :: h in headers <==> h in headers[..n] || h == headers[n];
      RowCells(headers[..n], values)[headers[n] := CellAt(values, n)]
  }

  /** A header that does not come again later gets its own cell, so a
      repeated header keeps the cell of its last occurrence. */
  lemma {:induction false} RowCellsLastWins(headers: seq<string>, values: seq<string>, i: nat)
    requires i < |headers|
    requires forall j :: i < j < |headers| ==> headers[j] != headers[i]
    ensures headers[i] in RowCells(headers, values)
    ensures RowCells(headers, values)[headers[i]] == CellAt(values, i)
  {
    var n := |headers| - 1;
    var init := headers[..n];
    assert RowCells(headers, values) == RowCells(init, values)[headers[n] := CellAt(values, n)];
    if i < n {
      assert init[i] == headers[i];
      forall j | i < j < |init|
        ensures init[j] != init[i]
      {
        assert init[j] == headers[j];
      }
      RowCellsLastWins(init, values, i);
      assert headers[n] != headers[i];
    }
  }

  /** The object for data line `k` (from 0): `{ rowIndex: k + 2 }` with
      every header then assigned its cell. */
  function RowOf(headers: seq<string>, values: seq<string>, k: int): Row {
    var cells := RowCells(headers, values);
    Row(if IndexKey in cells then CellText(cells[IndexKey]) else Line(k + 2), cells)
  }

  /** Column `j` is the last one headed `h`. */
  predicate LastColumn(headers: seq<string>, h: string, j: int) {
    0 <= j < |headers| && headers[j] == h && forall j' :: j < j' < |headers| ==> headers[j'] != h
  }

  /** A row keeps its line number unless a column is called `rowIndex`;
      then it carries the cell of the last such column. */
  lemma RowIndexOf(headers: seq<string>, values: seq<string>, k: int)
    ensures IndexKey !in headers ==> RowOf(headers, values, k).rowIndex == Line(k + 2)
    ensures forall j :: LastColumn(headers, IndexKey, j) ==>
      RowOf(headers, values, k).rowIndex == CellText(CellAt(values, j))
  {
    forall j | LastColumn(headers, IndexKey, j)
      ensures RowOf(headers, values, k).rowIndex == CellText(CellAt(values, j))
    {
      RowCellsLastWins(headers, values, j);
    }
  }

  /** The index `RowOf` gives: the cell under `rowIndex` when the headers
      have one, otherwise the line number. */
  lemma RowOfTag(headers: seq<string>, values: seq<string>, k: int)
    ensures IndexKey !in headers ==> RowOf(headers, values, k).rowIndex == Line(k + 2)
    ensures IndexKey in headers ==> IndexKey in RowOf(headers, values, k).cells
    ensures IndexKey in headers ==>
      RowOf(headers, values, k).rowIndex == CellText(RowOf(headers, values, k).cells[IndexKey])
  {
  }

  /** Every data line made into a row. */
  function AllRows(headers: seq<string>, data: seq<string>): (rows: seq<Row>)
    ensures |rows| == |data|
  {
    seq(|data|, k requires 0 <= k < |data| => RowOf(headers, CleanCells(data[k]), k))
  }

  /** `data.slice(0, 100)`, the kept rows. */
  function DataRows(headers: seq<string>, data: seq<string>): seq<Row> {
    var rows := AllRows(headers, data);
    rows[..Min(|rows|, MaxRows)]
  }

  /** `parseFile` once the blank lines are gone: `None` when no line is left,
      in which case nothing happens. */
  function ParseLines(lines: seq<string>): Option<Parsed> {
    if |lines| == 0 then None
    else
      var headers := CleanCells(lines[0]);
      Some(Parsed(headers, DataRows(headers, lines[1..]), MappingOf(headers)))
  }

  /** `parseFile` on the text of a file. */
  function ParseText(content: string): Option<Parsed> {
    ParseLines(NonBlank(Split(content, '\n')))
  }

  /** A file yields a result exactly when it has a non-blank line; the first
      such line gives the headers, and the rows are the data lines after it
      in file order, at most a hundred of them, each built from its own
      line and its position. */
  lemma ParsedRows(lines: seq<string>)
    ensures ParseLines(lines).Some? <==> |lines| > 0
    ensures ParseLines(lines).Some? ==>
      var p := ParseLines(lines).value;
      p.headers == CleanCells(lines[0]) &&
      |p.rows| == Min(|lines| - 1, MaxRows) &&
      forall k :: 0 <= k < |p.rows| ==>
        p.rows[k] == RowOf(p.headers, CleanCells(lines[k + 1]), k)
  {
    if |lines| > 0 {
      var headers := CleanCells(lines[0]);
      var rows := AllRows(headers, lines[1..]);
      var p := ParseLines(lines).value;
      assert p.headers == headers;
      assert p.rows == rows[..Min(|rows|, MaxRows)];
      forall k | 0 <= k < |p.rows|
        ensures p.rows[k] == RowOf(headers, CleanCells(lines[k + 1]), k)
      {
        assert p.rows[k] == rows[k];
        assert lines[1..][k] == lines[k + 1];
      }
    }
  }

  /** A file with headers but no data lines (a header line, perhaps followed
      by line breaks and blank lines) still yields a result, so the wizard
      moves on to the mapping step with no rows. */
  lemma HeaderOnlyFile(text: string)
    requires |NonBlank(Split(text, '\n'))| == 1
    ensures ParseText(text).Some? && ParseText(text).value.rows == []
    ensures ParseText(text).value.headers == CleanCells(NonBlank(Split(text, '\n'))[0])
  {
    ParsedRows(NonBlank(Split(text, '\n')));
  }

  // -------------------------------------------------------- auto-mapping

  /** The label in lower case with its ` *` marker taken out. */
  function LabelStem(f: Field): string {
    ReplaceFirst(ToLower(f.caption), " *", "")
  }

  /** The extra words that point at a field besides its key and label. */
  predicate Synonym(key: Key, h: string) {
    match key
    case NationalId => Contains(h, "national") || Contains(h, "id")
    case PayrollNumber => Contains(h, "payroll") || Contains(h, "pf")
    case KraPin => Contains(h, "kra")
    case NssfNumber => Contains(h, "nssf")
    case ShifNumber => Contains(h, "shif")
    case FirstName => Contains(h, "first")
    case LastName => Contains(h, "last")
    case JobTitle => Contains(h, "job") || Contains(h, "title") || Contains(h, "position")
    case _ => false
  }

  /** Field `f` claims a lower-cased header `h`. */
  predicate Matches(f: Field, h: string) {
    Contains(h, ToLower(KeyName(f.key))) || Contains(h, LabelStem(f)) || Synonym(f.key, h)
  }

  /** The test `fs.find` applies to each field for header `h`. */
  function Claims(h: string): Field -> bool {
    f => Matches(f, h)
  }

  /** `fs.find(...)`: the position of the first field claiming `h`. */
  function FirstMatch(fs: seq<Field>, h: string): (r: Option<nat>)
    ensures r.Some? ==> r.value < |fs| && Matches(fs[r.value], h)
    ensures r.Some? ==> forall i :: 0 <= i < r.value ==> !Matches(fs[i], h)
    ensures r.None? ==> forall i :: 0 <= i < |fs| ==> !Matches(fs[i], h)
  {
    FindIndex(fs, Claims(h))
  }

  /** The key of the field a header is given to, if any. */
  function MatchKey(header: string): Option<Key> {
    match FirstMatch(Fields, ToLower(header))
    case None => None
    case Some(i) => Some(Fields[i].key)
  }

  /** The mapping built by giving each header, in order, to the field that
      `claim` picks for it, so that a later header claiming the same field
      replaces an earlier one. */
  function MappingWith(headers: seq<string>, claim: string -> Option<Key>): map<Key, string> {
    if headers == [] then map[]
    else
      var n := |headers| - 1;
      var m := MappingWith(headers[..n], claim);
      match claim(headers[n])
      case None => m
      case Some(k) => m[k := headers[n]]
  }

  /** One more header: its claim, if any, is added to the mapping so far. */
  lemma MappingWithStep(headers: seq<string>, i: nat, claim: string -> Option<Key>)
    requires i < |headers|
    ensures MappingWith(headers[..i + 1], claim) ==
      match claim(headers[i])
      case None => MappingWith(headers[..i], claim)
      case Some(k) => MappingWith(headers[..i], claim)[k := headers[i]]
  {
    assert headers[..i + 1][..i] == headers[..i];
  }

  /** `autoMapping`: each header goes to the first field that claims it. */
  function MappingOf(headers: seq<string>): map<Key, string> {
    MappingWith(headers, MatchKey)
  }

  /** Header `j` claims field `k` and no later header does. */
  predicate LastClaim(headers: seq<string>, claim: string -> Option<Key>, k: Key, j: int) {
    0 <= j < |headers| && claim(headers[j]) == Some(k) &&
    forall j' :: j < j' < |headers| ==> claim(headers[j']) != Some(k)
  }

  lemma LastClaimExtend(headers: seq<string>, claim: string -> Option<Key>, k: Key, j: int)
    requires |headers| > 0 && LastClaim(headers[..|headers| - 1], claim, k, j)
    requires claim(headers[|headers| - 1]) != Some(k)
    ensures LastClaim(headers, claim, k, j)
  {
    var n := |headers| - 1;
    assert forall j' :: j < j' < n ==> headers[..n][j'] == headers[j'];
  }

  /** A field is mapped exactly when some header claims it, and then to the
      LAST header that claims it. */
  lemma {:induction false} MappingLastWins(headers: seq<string>, claim: string -> Option<Key>)
    ensures forall k :: k in MappingWith(headers, claim) ==>
      exists j :: LastClaim(headers, claim, k, j) && MappingWith(headers, claim)[k] == headers[j]
    ensures forall j :: 0 <= j < |headers| && claim(headers[j]).Some? ==> claim(headers[j]).value in MappingWith(headers, claim)
  {
    if headers != [] {
      var n := |headers| - 1;
      var init := headers[..n];
      MappingLastWins(init, claim);
      var m := MappingWith(init, claim);
      assert forall j :: 0 <= j < n ==> init[j] == headers[j];
      forall k | k in MappingWith(headers, claim)
        ensures exists j :: LastClaim(headers, claim, k, j) && MappingWith(headers, claim)[k] == headers[j]
      {
        if claim(headers[n]) == Some(k) {
          assert LastClaim(headers, claim, k, n);
        } else {
          var j :| LastClaim(init, claim, k, j) && m[k] == init[j];
          LastClaimExtend(headers, claim, k, j);
        }
      }
    }
  }

  /** Every mapped column is a header of the file. */
  lemma MappedColumnsAreHeaders(headers: seq<string>)
    ensures forall k :: k in MappingOf(headers) ==> MappingOf(headers)[k] in headers
  {
    MappingLastWins(headers, MatchKey);
  }

  // ------------------------------------------------------------- methods

  /** The object for data line `k`: `{ rowIndex: k + 2 }`, then the
      `headers.forEach` loop assigning each header its cell, which for a
      header called `rowIndex` is an assignment to the row's index. */
  method BuildRow(headers: seq<string>, values: seq<string>, k: int) returns (row: Row)
    ensures row == RowOf(headers, values, k)
  {
    row := Row(Line(k + 2), map[]);
    for i := 0 to |headers|
      invariant row == RowOf(headers[..i], values, k)
    {
      assert headers[..i + 1][..i] == headers[..i];
      var cell := CellAt(values, i);
      row := row.(cells := row.cells[headers[i] := cell]);
      if headers[i] == IndexKey {
        row := row.(rowIndex := CellText(cell));
      }
    }
    assert headers[..|headers|] == headers;
  }

  /** The `headers.forEach` loop that fills the automatic mapping. */
  method AutoMap(headers: seq<string>) returns (mapping: map<Key, string>)
    ensures mapping == MappingOf(headers)
  {
    mapping := map[];
    for i := 0 to |headers|
      invariant mapping == MappingWith(headers[..i], MatchKey)
    {
      var h := headers[i];
      var matched := FirstMatch(Fields, ToLower(h));
      assert MatchKey(h) == if matched.Some? then Some(Fields[matched.value].key) else None;
      MappingWithStep(headers, i, MatchKey);
      if matched.Some? {
        mapping := mapping[Fields[matched.value].key := h];
      }
    }
    assert headers[..|headers|] == headers;
  }

  /** `lines.slice(1).map(...)`: one row per data line. */
  method BuildRows(headers: seq<string>, data: seq<string>) returns (rows: seq<Row>)
    ensures rows == AllRows(headers, data)
  {
    rows := [];
    for k := 0 to |data|
      invariant |rows| == k
      invariant forall q :: 0 <= q < k ==> rows[q] == RowOf(headers, CleanCells(data[q]), q)
    {
      var row := BuildRow(headers, CleanCells(data[k]), k);
      rows := rows + [row];
    }
    var all := AllRows(headers, data);
    assert forall q :: 0 <= q < |data| ==> all[q] == RowOf(headers, CleanCells(data[q]), q);
  }

  /** The body of the reader's `onload`: rows and mapping from the text. */
  method ParseContent(content: string) returns (r: Option<Parsed>)
    ensures r == ParseText(content)
  {
    var lines := NonBlank(Split(content, '\n'));
    r := ReadLines(lines);
  }

  /** The rest of `onload` once the blank lines are gone. */
  method ReadLines(lines: seq<string>) returns (r: Option<Parsed>)
    ensures r == ParseLines(lines)
  {
    if |lines| == 0 {
      return None;
    }
    var headers := CleanCells(lines[0]);
    var rows := BuildRows(headers, lines[1..]);
    var mapping := AutoMap(headers);
    r := Some(Parsed(headers, rows[..Min(|rows|, MaxRows)], mapping));
  }


  // ---------------------------------------------------------- the template

  const SampleLine: string :=
    "Sample data will be here,MOE001234,A012345678X,NS001234567,SH001234567,John,Doe,john.doe@ministry.go.ke,+254712345678,Senior Officer,Administration"

  /** The column headers of the downloadable template: each label with its
      ` *` marker taken out (case kept). */
  function TemplateHeaders(): seq<string> {
    seq(|Fields|, i requires 0 <= i < |Fields| => ReplaceFirst(Fields[i].caption, " *", ""))
  }

  /** `downloadTemplate`'s file text. */
  function Template(): string {
    Join(TemplateHeaders(), ",") + "\n" + SampleLine
  }

  /** Taking the marker off a label that ends in it and has no other `*`. */
  lemma ReplaceMarker(a: string)
    requires '*' !in a
    ensures ReplaceFirst(a + " *", " *", "") == a
  {
    var s := a + " *";
    assert OccursAt(s, " *", |a|);
    forall j | 0 <= j < |a|
      ensures !OccursAt(s, " *", j)
    {
      assert s[j + 1] != '*' by {
        if j + 1 < |a| {
          assert s[j + 1] == a[j + 1];
        } else {
          assert s[j + 1] == ' ';
        }
      }
    }
    assert s[..|a|] == a;
  }

  lemma StemHasNoStar(k: Key)
    ensures '*' !in Stem(k)
  {
  }

  /** The template's headers are the field labels without their marker, in
      field order. */
  lemma TemplateHeadersAreStems()
    ensures |TemplateHeaders()| == |Fields|
    ensures forall i :: 0 <= i < |Fields| ==> TemplateHeaders()[i] == Stem(Fields[i].key)
  {
    FieldsWellFormed();
    forall i | 0 <= i < |Fields|
      ensures TemplateHeaders()[i] == Stem(Fields[i].key)
    {
      var k := Fields[i].key;
      StemHasNoStar(k);
      ReplaceMarker(Stem(k));
      assert Fields[i].caption == Stem(k) + " *";
    }
  }
}
