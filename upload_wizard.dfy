/** The four-step bulk-upload screen (select file, map fields, validate,
    complete) as an object whose handlers update its state. The parsing and
    the checks it calls are the functions of `UploadParse` and
    `UploadValidate`. */
module UploadWizard {
  import opened Wrappers
  import opened Text
  import opened UploadParse
  import opened UploadValidate

  /** What the browser hands over for a chosen file: its MIME type and, once
      read, its text. */
  datatype FileInfo = FileInfo(mime: string, content: string)

  /** The three MIME types the file picker accepts. */
  predicate IsSheetType(mime: string) {
    mime == "text/csv" ||
    mime == "application/vnd.ms-excel" ||
    mime == "application/vnd.openxmlformats-officedocument.spreadsheetml.sheet"
  }

  /** The columns offered in each mapping drop-down: the keys of the first
      row other than `rowIndex`, and none before a file is chosen. */
  function ColumnChoices(hasFile: bool, rows: seq<Row>): set<string> {
    if !hasFile || rows == [] then {} else rows[0].cells.Keys - {IndexKey}
  }

  /** What keeps the "Validate Data" button enabled: every required field
      mapped to a non-empty column. */
  predicate Ready(mapping: map<Key, string>) {
    forall i :: 0 <= i < |Fields| && Fields[i].required ==> Fields[i].key in mapping && mapping[Fields[i].key] != ""
  }

  // ------------------------------------------------------------- lemmas

  /** Parsed rows are never more than a hundred. Without a `rowIndex`
      column they are numbered by their line; with one, every row's index is
      its cell in that column. */
  lemma ParsedWellFormed(content: string)
    ensures ParseText(content).Some? ==> |ParseText(content).value.rows| <= MaxRows
    ensures ParseText(content).Some? && IndexKey !in ParseText(content).value.headers ==>
      Numbered(ParseText(content).value.rows)
    ensures ParseText(content).Some? && IndexKey in ParseText(content).value.headers ==>
      var rows := ParseText(content).value.rows;
      forall k :: 0 <= k < |rows| ==> IndexKey in rows[k].cells && rows[k].rowIndex == CellText(rows[k].cells[IndexKey])
  {
    var lines := NonBlank(Split(content, '\n'));
    assert ParseText(content) == ParseLines(lines);
    if lines != [] {
      ParsedRows(lines);
      var p := ParseLines(lines).value;
      forall k | 0 <= k < |p.rows|
        ensures IndexKey !in p.headers ==> p.rows[k].rowIndex == Line(k + 2)
        ensures IndexKey in p.headers ==> IndexKey in p.rows[k].cells && p.rows[k].rowIndex == CellText(p.rows[k].cells[IndexKey])
      {
        RowOfTag(p.headers, CleanCells(lines[k + 1]), k);
      }
    }
  }

  /** Once a file with data rows is loaded, the drop-downs offer exactly its
      header names other than `rowIndex`. */
  lemma ChoicesAreHeaders(content: string)
    requires ParseText(content).Some? && ParseText(content).value.rows != []
    ensures ColumnChoices(true, ParseText(content).value.rows) == (set h | h in ParseText(content).value.headers) - {IndexKey}
  {
    var lines := NonBlank(Split(content, '\n'));
    assert ParseText(content) == ParseLines(lines);
    ParsedRows(lines);
    var p := ParseLines(lines).value;
    FirstRowKeys(p.headers, p.rows[0], CleanCells(lines[1]));
  }

  lemma FirstRowKeys(headers: seq<string>, row: Row, values: seq<string>)
    requires row == RowOf(headers, values, 0)
    ensures row.cells.Keys - {IndexKey} == (set h | h in headers) - {IndexKey}
  {
    assert row.cells.Keys == set h | h in headers;
  }

  /** Every field is required, so validation is enabled exactly when every
      field is mapped to a non-empty column. */
  lemma ReadyIffAllMapped(mapping: map<Key, string>)
    ensures Ready(mapping) <==> forall k: Key :: k in mapping && mapping[k] != ""
  {
    FieldsWellFormed();
    if Ready(mapping) {
      forall k: Key ensures k in mapping && mapping[k] != "" {
        assert Fields[Rank(k)].key == k;
      }
    }
  }

  /** "Upload Valid Records" is disabled exactly when every row has
      messages; when no two rows share a `rowIndex`, that is exactly when no
      row would be uploaded. */
  lemma UploadDisabledIffNoneValid(rows: seq<Row>, mapping: map<Key, string>)
    ensures |Validate(rows, mapping)| == |rows| <==> forall k :: 0 <= k < |rows| ==> RowMessages(rows, mapping, k) != []
    ensures DistinctTags(rows) ==>
      (|Validate(rows, mapping)| == |rows| <==> ValidRows(rows, Validate(rows, mapping)) == [])
  {
    var table := MessageTable(rows, mapping);
    ValidateIsReported(rows, mapping);
    AcceptedPlusEntries(rows, table, |rows|);
    AcceptedEmpty(rows, table, |rows|);
    if DistinctTags(rows) {
      ValidPartition(rows, mapping);
    }
  }

  /** No row is free of messages exactly when none is accepted. */
  lemma {:induction false} AcceptedEmpty(rows: seq<Row>, table: seq<seq<string>>, n: nat)
    requires n <= |rows| == |table|
    ensures Accepted(rows, table, n) == [] <==> forall k :: 0 <= k < n ==> table[k] != []
  {
    if n > 0 {
      AcceptedEmpty(rows, table, n - 1);
    }
  }

  /** With a `rowIndex` column whose cells are all the same (left blank,
      say), one row with messages and one without leave the button enabled,
      showing at least one valid record, while the upload takes no row. */
  lemma EnabledButNothingUploaded(rows: seq<Row>, mapping: map<Key, string>, bad: nat, good: nat)
    requires bad < |rows| && good < |rows|
    requires RowMessages(rows, mapping, bad) != [] && RowMessages(rows, mapping, good) == []
    requires forall j :: 0 <= j < |rows| ==> rows[j].rowIndex == rows[bad].rowIndex
    ensures |Validate(rows, mapping)| < |rows|
    ensures ValidRows(rows, Validate(rows, mapping)) == []
  {
    UploadDisabledIffNoneValid(rows, mapping);
    ValidateEntries(rows, mapping);
    SharedTagUploadsNothing(rows, mapping, bad);
  }

  // ------------------------------------------------------------- the screen

  class Wizard {
    var step: int
    var hasFile: bool
    var ministry: string
    var rows: seq<Row>
    var mapping: map<Key, string>
    var errors: seq<RowError>
    var uploading: bool
    var progress: real

    /** Steps 1 to 4; at most a hundred rows; and, from the
        validation step on, the error list is the one the current rows and
        mapping give. */
    predicate Valid()
      reads this
    {
      1 <= step <= 4 &&
      |rows| <= MaxRows &&
      !uploading &&
      (step >= 3 ==> errors == Validate(rows, mapping))
    }

    constructor ()
      ensures Valid()
      ensures step == 1 && !hasFile && ministry == "" && rows == [] && mapping == map[]
      ensures errors == [] && !uploading && progress == 0.0
    {
      step := 1;
      hasFile := false;
      ministry := "";
      rows := [];
      mapping := map[];
      errors := [];
      uploading := false;
      progress := 0.0;
    }

    /** `reader.onload` with the parse result `r`: no result changes
        nothing; otherwise the rows and the automatic mapping replace the old
        ones and the mapping step opens. The old error list stays until the
        next validation. */
    method Load(r: Option<Parsed>)
      requires Valid()
      requires r.Some? ==> |r.value.rows| <= MaxRows
      modifies this
      ensures Valid()
      ensures r.None? ==> rows == old(rows) && mapping == old(mapping) && step == old(step)
      ensures r.Some? ==> rows == r.value.rows && mapping == r.value.mapping && step == 2
      ensures hasFile == old(hasFile) && ministry == old(ministry) && errors == old(errors)
      ensures uploading == old(uploading) && progress == old(progress)
    {
      if r.Some? {
        rows := r.value.rows;
        mapping := r.value.mapping;
        step := 2;
      }
    }

    /** `parseFile`: the text of the file is parsed and loaded. */
    method ParseFile(content: string)
      requires Valid()
      modifies this
      ensures Valid()
      ensures ParseText(content).None? ==> rows == old(rows) && mapping == old(mapping) && step == old(step)
      ensures ParseText(content).Some? ==>
        rows == ParseText(content).value.rows && mapping == ParseText(content).value.mapping && step == 2
      ensures hasFile == old(hasFile) && ministry == old(ministry) && errors == old(errors)
      ensures uploading == old(uploading) && progress == old(progress)
    {
      var r := ParseContent(content);
      ParsedWellFormed(content);
      Load(r);
    }

    /** What both ways of choosing a file do with the file they take:
        `setFile` and `parseFile`. */
    method Take(file: FileInfo)
      requires Valid()
      modifies this
      ensures Valid() && hasFile
      ensures ParseText(file.content).None? ==>
        step == old(step) && rows == old(rows) && mapping == old(mapping) && errors == old(errors)
      ensures ParseText(file.content).Some? ==>
        rows == ParseText(file.content).value.rows && mapping == ParseText(file.content).value.mapping &&
        step == 2 && errors == old(errors)
      ensures ministry == old(ministry) && progress == old(progress)
    {
      MarkFile();
      ParseFile(file.content);
    }

    /** `setFile`: a file is chosen; nothing else changes. */
    method MarkFile()
      requires Valid()
      modifies this`hasFile
      ensures Valid() && hasFile
    {
      hasFile := true;
    }

    /** `handleFileSelect`: only a CSV or Excel file is taken; anything else
        changes nothing. */
    method SelectFile(file: Option<FileInfo>)
      requires Valid()
      modifies this
      ensures Valid()
      ensures !(file.Some? && IsSheetType(file.value.mime)) ==> unchanged(this)
      ensures file.Some? && IsSheetType(file.value.mime) ==> hasFile
      ensures file.Some? && IsSheetType(file.value.mime) && ParseText(file.value.content).None? ==>
        step == old(step) && rows == old(rows) && mapping == old(mapping) && errors == old(errors)
      ensures file.Some? && IsSheetType(file.value.mime) && ParseText(file.value.content).Some? ==>
        rows == ParseText(file.value.content).value.rows && mapping == ParseText(file.value.content).value.mapping &&
        step == 2 && errors == old(errors)
      ensures ministry == old(ministry) && progress == old(progress)
    {
      if file.Some? && IsSheetType(file.value.mime) {
        Take(file.value);
      }
    }

    /** `handleDrop`: any dropped file is taken, whatever its type. */
    method Drop(file: Option<FileInfo>)
      requires Valid()
      modifies this
      ensures Valid()
      ensures file.None? ==> unchanged(this)
      ensures file.Some? ==> hasFile
      ensures file.Some? && ParseText(file.value.content).None? ==>
        step == old(step) && rows == old(rows) && mapping == old(mapping) && errors == old(errors)
      ensures file.Some? && ParseText(file.value.content).Some? ==>
        rows == ParseText(file.value.content).value.rows && mapping == ParseText(file.value.content).value.mapping &&
        step == 2 && errors == old(errors)
      ensures ministry == old(ministry) && progress == old(progress)
    {
      if file.Some? {
        Take(file.value);
      }
    }

    /** The ministry drop-down. */
    method SelectMinistry(value: string)
      requires Valid()
      modifies this
      ensures Valid()
      ensures ministry == value
      ensures step == old(step) && hasFile == old(hasFile) && rows == old(rows) && mapping == old(mapping)
      ensures errors == old(errors) && progress == old(progress)
    {
      ministry := value;
    }

    /** A mapping drop-down, shown on the mapping step only: the field now
        reads `column`, one of the offered columns or "" for "Select
        Column". */
    method ChooseColumn(key: Key, column: string)
      requires Valid() && step == 2
      requires column == "" || column in ColumnChoices(hasFile, rows)
      modifies this
      ensures Valid()
      ensures mapping == old(mapping)[key := column]
      ensures step == old(step) && hasFile == old(hasFile) && ministry == old(ministry) && rows == old(rows)
      ensures errors == old(errors) && progress == old(progress)
    {
      mapping := mapping[key := column];
    }

    /** `validateData`: the error list for the current rows and mapping, and
        the validation step. */
    method ValidateData()
      requires Valid()
      modifies this
      ensures Valid()
      ensures errors == Validate(rows, mapping) && step == 3
      ensures hasFile == old(hasFile) && ministry == old(ministry) && rows == old(rows) && mapping == old(mapping)
      ensures progress == old(progress)
    {
      errors := ValidateRows(rows, mapping);
      step := 3;
    }

    /** The "Validate Data" button, disabled until every required field is
        mapped. */
    method ClickValidate()
      requires Valid()
      modifies this
      ensures Valid()
      ensures !Ready(old(mapping)) ==> unchanged(this)
      ensures Ready(old(mapping)) ==> errors == Validate(rows, mapping) && step == 3
      ensures hasFile == old(hasFile) && ministry == old(ministry) && rows == old(rows) && mapping == old(mapping)
      ensures progress == old(progress)
    {
      if Ready(mapping) {
        ValidateData();
      }
    }

    /** "Back to Mapping". */
    method BackToMapping()
      requires Valid()
      modifies this
      ensures Valid()
      ensures step == 2
      ensures hasFile == old(hasFile) && ministry == old(ministry) && rows == old(rows) && mapping == old(mapping)
      ensures errors == old(errors) && progress == old(progress)
    {
      step := 2;
    }

    /** `handleUpload`, shown on the validation step: without a ministry
        nothing happens; otherwise the rows whose `rowIndex` no error entry
        carries are gone over one by one, the progress reaching 100% (it
        stays at 0 when there is none), and the completion step opens. The
        count shown there, rows less error entries, is the number of rows
        gone over when no two rows share a `rowIndex`. */
    method Upload()
      requires Valid() && step == 3
      modifies this
      ensures Valid()
      ensures ministry == "" ==> unchanged(this)
      ensures ministry != "" ==>
        step == 4 && progress == (if ValidRows(rows, errors) == [] then 0.0 else 100.0)
      ensures DistinctTags(rows) ==> |ValidRows(rows, errors)| == |rows| - |errors|
      ensures hasFile == old(hasFile) && ministry == old(ministry) && rows == old(rows) && mapping == old(mapping)
      ensures errors == old(errors)
    {
      if DistinctTags(rows) {
        ValidPartition(rows, mapping);
      }
      if ministry != "" {
        uploading := true;
        progress := 0.0;
        Advance(|ValidRows(rows, errors)|);
        uploading := false;
        step := 4;
      }
    }

    /** The loop of `handleUpload` over `count` rows: after each one, the
        share of rows done so far as a percentage. */
    method Advance(count: nat)
      requires progress == 0.0
      modifies this`progress
      ensures progress == if count == 0 then 0.0 else 100.0
    {
      for i := 0 to count
        invariant progress == if i == 0 then 0.0 else (i as real / count as real) * 100.0
      {
        progress := ((i + 1) as real / count as real) * 100.0;
      }
      if count > 0 {
        var n := count as real;
        assert n / n == 1.0;
      }
    }

    /** The "Upload Valid Records" button, disabled when every row has an
        error entry. Once pressed, the progress reaches 100% when no two
        rows share a `rowIndex`; otherwise it may stay at 0. */
    method ClickUpload()
      requires Valid() && step == 3
      modifies this
      ensures Valid()
      ensures |old(errors)| == |old(rows)| ==> unchanged(this)
      ensures |old(errors)| != |old(rows)| && ministry != "" ==>
        step == 4 && progress == (if ValidRows(rows, errors) == [] then 0.0 else 100.0)
      ensures |old(errors)| != |old(rows)| && ministry != "" && DistinctTags(rows) ==> progress == 100.0
      ensures hasFile == old(hasFile) && ministry == old(ministry) && rows == old(rows) && mapping == old(mapping)
      ensures errors == old(errors)
    {
      if |errors| != |rows| {
        Upload();
      }
    }

    /** `resetUpload` ("Start Over", "Upload Another File"). */
    method Reset()
      requires Valid()
      modifies this
      ensures Valid()
      ensures step == 1 && !hasFile && rows == [] && mapping == map[] && errors == [] && ministry == "" && progress == 0.0
    {
      step := 1;
      hasFile := false;
      rows := [];
      mapping := map[];
      errors := [];
      ministry := "";
      progress := 0.0;
    }
  }
}
