/** The validation step of the bulk staff upload
    (src/components/Upload/BulkUpload.js): every row is checked field by
    field for presence, format and repeats within the batch, and rows with
    at least one message are reported. */
module UploadValidate {
  import opened Text
  import opened UploadParse

  // ------------------------------------------------------------ formats

  /** `/^\d{8}$/` */
  predicate IsNationalIdFormat(v: string) {
    |v| == 8 && AllDigits(v)
  }

  /** `/^[A-Z]\d{9}[A-Z]$/` */
  predicate IsKraPinFormat(v: string) {
    |v| == 11 && IsUpper(v[0]) && AllDigits(v[1..10]) && IsUpper(v[10])
  }

  /** Only characters of the class `[^\s@]`. */
  predicate NoSpaceOrAt(s: string) {
    forall i :: 0 <= i < |s| ==> !IsJsSpace(s[i]) && s[i] != '@'
  }

  /** `v` splits as `a@b.c` at positions `at` and `dot`, with `a`, `b` and
      `c` non-empty runs of `[^\s@]`. */
  predicate EmailSplit(v: string, at: int, dot: int) {
    0 < at && at + 1 < dot && dot + 1 < |v| && v[at] == '@' && v[dot] == '.' &&
    NoSpaceOrAt(v[..at]) && NoSpaceOrAt(v[at + 1..dot]) && NoSpaceOrAt(v[dot + 1..])
  }

  /** `/^[^\s@]+@[^\s@]+\.[^\s@]+$/` */
  predicate IsEmailFormat(v: string) {
    exists at, dot :: 0 <= at < dot < |v| && EmailSplit(v, at, dot)
  }

  /** `[7-9]\d{8}`: the part of a mobile number after its prefix. */
  predicate MobileTail(t: string) {
    |t| == 9 && '7' <= t[0] <= '9' && AllDigits(t[1..])
  }

  /** `/^(\+254|254|0)[7-9]\d{8}$/` applied after every white-space character
      has been removed. */
  predicate IsPhoneFormat(v: string) {
    var p := RemoveSpaces(v);
    (|p| >= 4 && p[..4] == "+254" && MobileTail(p[4..])) ||
    (|p| >= 3 && p[..3] == "254" && MobileTail(p[3..])) ||
    (|p| >= 1 && p[0] == '0' && MobileTail(p[1..]))
  }

  /** The fields that have a format rule. */
  predicate HasFormat(key: Key) {
    key == NationalId || key == KraPin || key == Email || key == Phone
  }

  predicate FormatOk(key: Key, v: string) {
    match key
    case NationalId => IsNationalIdFormat(v)
    case KraPin => IsKraPinFormat(v)
    case Email => IsEmailFormat(v)
    case Phone => IsPhoneFormat(v)
    case _ => true
  }

  function FormatMsg(key: Key): string {
    match key
    case NationalId => "National ID must be 8 digits"
    case KraPin => "Invalid KRA PIN format"
    case Email => "Invalid email format"
    case Phone => "Invalid phone number format"
    case _ => ""
  }

  // ------------------------------------------------------------ repeats

  /** The three `Set`s of values met so far in the batch. */
  datatype Seen = Seen(ids: set<string>, payrolls: set<string>, emails: set<string>)

  const NoneSeen := Seen({}, {}, {})

  /** The fields whose values must not repeat within a batch. */
  predicate IsTracked(key: Key) {
    key == NationalId || key == PayrollNumber || key == Email
  }

  function Tracked(seen: Seen, key: Key): set<string> {
    match key
    case NationalId => seen.ids
    case PayrollNumber => seen.payrolls
    case Email => seen.emails
    case _ => {}
  }

  function DupMsg(key: Key): string {
    match key
    case NationalId => "Duplicate National ID"
    case PayrollNumber => "Duplicate payroll number"
    case Email => "Duplicate email address"
    case _ => ""
  }

  /** `seenX.add(value)` for a non-empty value of a tracked field. */
  function Note(key: Key, v: string, seen: Seen): Seen {
    if v == "" then seen
    else
      match key
      case NationalId => seen.(ids := seen.ids + {v})
      case PayrollNumber => seen.(payrolls := seen.payrolls + {v})
      case Email => seen.(emails := seen.emails + {v})
      case _ => seen
  }

  // ------------------------------------------------------------ messages

  function MissingMsg(f: Field): string {
    "Missing " + f.caption
  }

  /** The presence check: `Missing <label>` for an empty required value. */
  function MissingPart(f: Field, v: string): seq<string> {
    if f.required && v == "" then [MissingMsg(f)] else []
  }

  /** The format check, run only on a non-empty value. */
  function FormatPart(key: Key, v: string): seq<string> {
    if v != "" && !FormatOk(key, v) then [FormatMsg(key)] else []
  }

  /** The repeat check, run only on a non-empty value. */
  function DupPart(key: Key, v: string, seen: Seen): seq<string> {
    if v != "" && IsTracked(key) && v in Tracked(seen, key) then [DupMsg(key)] else []
  }

  /** The messages one field yields for value `v`, in the order the checks
      run: presence, then format, then repeat. */
  function FieldMessages(f: Field, v: string, seen: Seen): seq<string> {
    MissingPart(f, v) + FormatPart(f.key, v) + DupPart(f.key, v, seen)
  }

  /** `mappedColumn ? row[mappedColumn] : ''`, with a missing cell read as
      empty, the way the checks treat it. */
  function Value(row: Row, mapping: map<Key, string>, key: Key): string {
    if key in mapping && mapping[key] != "" && mapping[key] in row.cells then row.cells[mapping[key]] else ""
  }

  /** The sets after the inner `requiredFields.forEach` has gone over the
      fields `fs` of one row. */
  function SeenAfter(fs: seq<Field>, row: Row, mapping: map<Key, string>, seen: Seen): Seen {
    if fs == [] then seen
    else
      var f := fs[|fs| - 1];
      Note(f.key, Value(row, mapping, f.key), SeenAfter(fs[..|fs| - 1], row, mapping, seen))
  }

  /** The messages the inner `requiredFields.forEach` pushes for the fields
      `fs` of one row. */
  function Messages(fs: seq<Field>, row: Row, mapping: map<Key, string>, seen: Seen): seq<string> {
    if fs == [] then []
    else
      var n := |fs| - 1;
      Messages(fs[..n], row, mapping, seen) +
        FieldMessages(fs[n], Value(row, mapping, fs[n].key), SeenAfter(fs[..n], row, mapping, seen))
  }

  /** One entry of `validationErrors`. */
  datatype RowError = RowError(rowIndex: Tag, errors: seq<string>, data: Row)

  /** The sets after the outer `uploadedData.forEach` has gone over `rows`. */
  function SeenRows(rows: seq<Row>, mapping: map<Key, string>): Seen {
    if rows == [] then NoneSeen
    else
      var n := |rows| - 1;
      SeenAfter(Fields, rows[n], mapping, SeenRows(rows[..n], mapping))
  }

  /** `validateData`'s result: an entry for every row with messages. */
  function Validate(rows: seq<Row>, mapping: map<Key, string>): seq<RowError> {
    if rows == [] then []
    else
      var n := |rows| - 1;
      var msgs := Messages(Fields, rows[n], mapping, SeenRows(rows[..n], mapping));
      Validate(rows[..n], mapping) + (if msgs != [] then [RowError(rows[n].rowIndex, msgs, rows[n])] else [])
  }

  // ------------------------------------------------- reference definitions

  predicate HasKey(fs: seq<Field>, key: Key) {
    exists i :: 0 <= i < |fs| && fs[i].key == key
  }

  predicate KeysDistinct(fs: seq<Field>) {
    forall i, j :: 0 <= i < j < |fs| ==> fs[i].key != fs[j].key
  }

  /** The non-empty values of field `key` in the rows before row `k`. */
  function Earlier(rows: seq<Row>, mapping: map<Key, string>, k: nat, key: Key): set<string>
    requires k <= |rows|
  {
    set j | 0 <= j < k && Value(rows[j], mapping, key) != "" :: Value(rows[j], mapping, key)
  }

  function SeenBefore(rows: seq<Row>, mapping: map<Key, string>, k: nat): Seen
    requires k <= |rows|
  {
    Seen(Earlier(rows, mapping, k, NationalId), Earlier(rows, mapping, k, PayrollNumber), Earlier(rows, mapping, k, Email))
  }

  /** The messages of row `k`, with repeats judged against the rows that come
      before it. */
  function RowMessages(rows: seq<Row>, mapping: map<Key, string>, k: nat): seq<string>
    requires k < |rows|
  {
    Messages(Fields, rows[k], mapping, SeenBefore(rows, mapping, k))
  }

  /** The messages of every row, as `RowMessages` judges them. */
  function MessageTable(rows: seq<Row>, mapping: map<Key, string>): (table: seq<seq<string>>)
    ensures |table| == |rows|
    ensures forall k :: 0 <= k < |rows| ==> table[k] == RowMessages(rows, mapping, k)
  {
    seq(|rows|, k requires 0 <= k < |rows| => RowMessages(rows, mapping, k))
  }

  /** One entry for each of the first `n` rows whose messages in `table` are
      not empty, in row order. */
  function Entries(rows: seq<Row>, table: seq<seq<string>>, n: nat): seq<RowError>
    requires n <= |rows| == |table|
  {
    if n == 0 then []
    else Entries(rows, table, n - 1) + (if table[n - 1] != [] then [RowError(rows[n - 1].rowIndex, table[n - 1], rows[n - 1])] else [])
  }

  /** The entries the validation step is meant to report. */
  function Reported(rows: seq<Row>, mapping: map<Key, string>): seq<RowError> {
    Entries(rows, MessageTable(rows, mapping), |rows|)
  }

  // ------------------------------------------------------ field lemmas

  lemma NoteTracked(key: Key, v: string, seen: Seen, t: Key)
    requires IsTracked(t)
    ensures Tracked(Note(key, v, seen), t) == Tracked(seen, t) + (if key == t && v != "" then {v} else {})
  {
  }

  lemma HasKeyInit(fs: seq<Field>, t: Key)
    requires |fs| > 0
    ensures HasKey(fs, t) <==> HasKey(fs[..|fs| - 1], t) || fs[|fs| - 1].key == t
  {
    var n := |fs| - 1;
    if HasKey(fs, t) {
      var i :| 0 <= i < |fs| && fs[i].key == t;
      if i < n {
        assert fs[..n][i] == fs[i];
      }
    }
    if HasKey(fs[..n], t) {
      var i :| 0 <= i < n && fs[..n][i].key == t;
      assert fs[i] == fs[..n][i];
    }
  }

  /** After checking the fields `fs`, the set kept for field `t` has gained
      exactly `t`'s value, when `fs` has that field and the value is not
      empty. */
  lemma {:induction false} SeenAfterTracked(fs: seq<Field>, row: Row, mapping: map<Key, string>, seen: Seen, t: Key)
    requires IsTracked(t)
    ensures Tracked(SeenAfter(fs, row, mapping, seen), t) ==
      Tracked(seen, t) + (if HasKey(fs, t) && Value(row, mapping, t) != "" then {Value(row, mapping, t)} else {})
  {
    if fs != [] {
      var n := |fs| - 1;
      SeenAfterTracked(fs[..n], row, mapping, seen, t);
      NoteTracked(fs[n].key, Value(row, mapping, fs[n].key), SeenAfter(fs[..n], row, mapping, seen), t);
      HasKeyInit(fs, t);
    }
  }

  lemma SeenEqual(a: Seen, b: Seen)
    requires Tracked(a, NationalId) == Tracked(b, NationalId)
    requires Tracked(a, PayrollNumber) == Tracked(b, PayrollNumber)
    requires Tracked(a, Email) == Tracked(b, Email)
    ensures a == b
  {
  }

  lemma FormatPartNotDup(key: Key, v: string, t: Key)
    requires IsTracked(t)
    ensures DupMsg(t) !in FormatPart(key, v)
  {
    assert FormatMsg(key) != DupMsg(t);
  }

  lemma MissingPartNotDup(f: Field, v: string, t: Key)
    requires IsTracked(t)
    ensures DupMsg(t) !in MissingPart(f, v)
  {
    assert MissingMsg(f)[0] == 'M';
    assert DupMsg(t)[0] == 'D';
  }

  /** One field gives the repeat message of field `t` once, exactly when it
      is that field, its value is not empty and has been seen. */
  lemma FieldDupCount(f: Field, v: string, seen: Seen, t: Key)
    requires IsTracked(t)
    ensures multiset(FieldMessages(f, v, seen))[DupMsg(t)] ==
      if f.key == t && v != "" && v in Tracked(seen, t) then 1 else 0
  {
    FormatPartNotDup(f.key, v, t);
    MissingPartNotDup(f, v, t);
    var a, b, c := MissingPart(f, v), FormatPart(f.key, v), DupPart(f.key, v, seen);
    assert multiset(a + b + c) == multiset(a) + multiset(b) + multiset(c);
    assert multiset(a)[DupMsg(t)] == 0;
    assert multiset(b)[DupMsg(t)] == 0;
    DupPartCount(f.key, v, seen, t);
  }

  lemma DupPartCount(key: Key, v: string, seen: Seen, t: Key)
    requires IsTracked(t)
    ensures multiset(DupPart(key, v, seen))[DupMsg(t)] ==
      if key == t && v != "" && v in Tracked(seen, t) then 1 else 0
  {
    if DupPart(key, v, seen) != [] {
      DupMsgInjective(key, t);
    }
  }

  /** The three repeat messages differ, already in their length. */
  lemma DupMsgInjective(a: Key, b: Key)
    requires IsTracked(a) && IsTracked(b)
    ensures DupMsg(a) == DupMsg(b) <==> a == b
  {
    if a != b {
      assert |DupMsg(a)| != |DupMsg(b)|;
    }
  }

  lemma KeysDistinctInit(fs: seq<Field>)
    requires |fs| > 0 && KeysDistinct(fs)
    ensures KeysDistinct(fs[..|fs| - 1])
    ensures !HasKey(fs[..|fs| - 1], fs[|fs| - 1].key)
  {
    var n := |fs| - 1;
    forall i, j | 0 <= i < j < n ensures fs[..n][i].key != fs[..n][j].key {
      assert fs[..n][i] == fs[i] && fs[..n][j] == fs[j];
    }
  }

  /** Over fields with distinct keys, the repeat message of field `t` comes
      at most once: exactly when `t` is among them, its value is not empty
      and was seen before. */
  lemma {:induction false} MessagesDupCount(fs: seq<Field>, row: Row, mapping: map<Key, string>, seen: Seen, t: Key)
    requires IsTracked(t) && KeysDistinct(fs)
    ensures multiset(Messages(fs, row, mapping, seen))[DupMsg(t)] ==
      if HasKey(fs, t) && Value(row, mapping, t) != "" && Value(row, mapping, t) in Tracked(seen, t) then 1 else 0
  {
    if fs != [] {
      var n := |fs| - 1;
      KeysDistinctInit(fs);
      MessagesDupCount(fs[..n], row, mapping, seen, t);
      SeenAfterTracked(fs[..n], row, mapping, seen, t);
      FieldDupCount(fs[n], Value(row, mapping, fs[n].key), SeenAfter(fs[..n], row, mapping, seen), t);
      HasKeyInit(fs, t);
    }
  }

  // ------------------------------------------------------ other messages

  lemma MissingMsgInjective(a: string, b: string)
    ensures "Missing " + a == "Missing " + b ==> a == b
  {
    if "Missing " + a == "Missing " + b {
      assert ("Missing " + a)[8..] == a;
      assert ("Missing " + b)[8..] == b;
    }
  }

  /** The presence message of a label can only come from a required field
      with that label whose value is empty. */
  lemma FieldMissing(g: Field, v: string, seen: Seen, c: string)
    ensures "Missing " + c in FieldMessages(g, v, seen) <==> g.caption == c && g.required && v == ""
  {
    MissingMsgInjective(g.caption, c);
    assert ("Missing " + c)[0] == 'M';
    assert FormatMsg(g.key) == "" || FormatMsg(g.key)[0] != 'M';
    assert DupMsg(g.key) == "" || DupMsg(g.key)[0] != 'M';
  }

  /** Field `f` is labelled `c`, required, and has no value in the row. */
  predicate MissingField(f: Field, row: Row, mapping: map<Key, string>, c: string) {
    f.caption == c && f.required && Value(row, mapping, f.key) == ""
  }

  lemma {:induction false} MessagesMissing(fs: seq<Field>, row: Row, mapping: map<Key, string>, seen: Seen, c: string)
    ensures "Missing " + c in Messages(fs, row, mapping, seen) <==>
      exists i :: 0 <= i < |fs| && MissingField(fs[i], row, mapping, c)
  {
    if fs != [] {
      var n := |fs| - 1;
      var init := fs[..n];
      var a := Messages(init, row, mapping, seen);
      var b := FieldMessages(fs[n], Value(row, mapping, fs[n].key), SeenAfter(init, row, mapping, seen));
      assert Messages(fs, row, mapping, seen) == a + b;
      var m := "Missing " + c;
      assert m in a + b <==> m in a || m in b;
      MessagesMissing(init, row, mapping, seen, c);
      FieldMissing(fs[n], Value(row, mapping, fs[n].key), SeenAfter(init, row, mapping, seen), c);
      assert m in b <==> MissingField(fs[n], row, mapping, c);
      MissingFieldSplit(fs, init, row, mapping, c);
    }
  }

  lemma MissingFieldSplit(fs: seq<Field>, init: seq<Field>, row: Row, mapping: map<Key, string>, c: string)
    requires fs != [] && init == fs[..|fs| - 1]
    ensures (exists i :: 0 <= i < |fs| && MissingField(fs[i], row, mapping, c)) <==>
      (exists i :: 0 <= i < |init| && MissingField(init[i], row, mapping, c)) ||
      MissingField(fs[|fs| - 1], row, mapping, c)
  {
    var n := |fs| - 1;
    if exists i :: 0 <= i < |fs| && MissingField(fs[i], row, mapping, c) {
      var i :| 0 <= i < |fs| && MissingField(fs[i], row, mapping, c);
      if i < n {
        assert init[i] == fs[i];
      }
    }
    if exists i :: 0 <= i < n && MissingField(init[i], row, mapping, c) {
      var i :| 0 <= i < n && MissingField(init[i], row, mapping, c);
      assert init[i] == fs[i];
    }
  }

  /** The format message of a field with a format rule comes only from that
      field, for a non-empty value that breaks the rule. */
  lemma FieldFormat(g: Field, v: string, seen: Seen, key: Key)
    requires HasFormat(key)
    ensures FormatMsg(key) in FieldMessages(g, v, seen) <==> g.key == key && v != "" && !FormatOk(key, v)
  {
    assert MissingMsg(g)[0] == 'M';
    assert FormatMsg(key)[0] != 'M' && FormatMsg(key)[0] != 'D';
    assert DupMsg(g.key) == "" || DupMsg(g.key)[0] == 'D';
    assert FormatMsg(g.key) == FormatMsg(key) ==> g.key == key;
  }

  lemma {:induction false} MessagesFormat(fs: seq<Field>, row: Row, mapping: map<Key, string>, seen: Seen, key: Key)
    requires HasFormat(key)
    ensures FormatMsg(key) in Messages(fs, row, mapping, seen) <==>
      HasKey(fs, key) && Value(row, mapping, key) != "" && !FormatOk(key, Value(row, mapping, key))
  {
    if fs != [] {
      var n := |fs| - 1;
      MessagesFormat(fs[..n], row, mapping, seen, key);
      FieldFormat(fs[n], Value(row, mapping, fs[n].key), SeenAfter(fs[..n], row, mapping, seen), key);
      HasKeyInit(fs, key);
    }
  }

  // ------------------------------------------------------- the field list

  lemma FieldsHaveKeys()
    ensures KeysDistinct(Fields)
    ensures forall t: Key :: HasKey(Fields, t)
  {
    FieldsWellFormed();
    forall t: Key ensures HasKey(Fields, t) {
      assert Fields[Rank(t)].key == t;
    }
  }

  /** A label names exactly one field of the list. */
  lemma CaptionNamesField(i: int, key: Key)
    requires 0 <= i < |Fields|
    ensures Fields[i].caption == FieldOf(key).caption <==> Fields[i].key == key
  {
    FieldsWellFormed();
    StemInjective(Fields[i].key, key);
    var a, b := Stem(Fields[i].key), Stem(key);
    if (a + " *") == (b + " *") {
      assert (a + " *")[..|a|] == a && (b + " *")[..|b|] == b;
    }
  }

  // --------------------------------------------------------- row lemmas

  lemma EarlierStep(rows: seq<Row>, mapping: map<Key, string>, k: nat, t: Key)
    requires k < |rows|
    ensures Earlier(rows, mapping, k + 1, t) == Earlier(rows, mapping, k, t) +
      (if Value(rows[k], mapping, t) != "" then {Value(rows[k], mapping, t)} else {})
  {
  }

  lemma SeenBeforePrefix(rows: seq<Row>, mapping: map<Key, string>, n: nat, k: nat)
    requires k <= n <= |rows|
    ensures SeenBefore(rows[..n], mapping, k) == SeenBefore(rows, mapping, k)
  {
    assert forall j :: 0 <= j < k ==> rows[..n][j] == rows[j];
  }

  /** The sets kept by the loop hold exactly the non-empty values met in the
      earlier rows. */
  lemma {:induction false} SeenRowsIsSeenBefore(rows: seq<Row>, mapping: map<Key, string>)
    ensures SeenRows(rows, mapping) == SeenBefore(rows, mapping, |rows|)
  {
    if rows != [] {
      var n := |rows| - 1;
      SeenRowsIsSeenBefore(rows[..n], mapping);
      SeenBeforePrefix(rows, mapping, n, n);
      var before := SeenBefore(rows, mapping, n);
      FieldsHaveKeys();
      SeenAfterTracked(Fields, rows[n], mapping, before, NationalId);
      SeenAfterTracked(Fields, rows[n], mapping, before, PayrollNumber);
      SeenAfterTracked(Fields, rows[n], mapping, before, Email);
      EarlierStep(rows, mapping, n, NationalId);
      EarlierStep(rows, mapping, n, PayrollNumber);
      EarlierStep(rows, mapping, n, Email);
      SeenEqual(SeenRows(rows, mapping), SeenBefore(rows, mapping, n + 1));
    }
  }

  lemma {:induction false} EntriesPrefix(rows1: seq<Row>, table1: seq<seq<string>>, rows2: seq<Row>, table2: seq<seq<string>>, k: nat)
    requires k <= |rows1| == |table1| && k <= |rows2| == |table2|
    requires forall j :: 0 <= j < k ==> rows1[j] == rows2[j] && table1[j] == table2[j]
    ensures Entries(rows1, table1, k) == Entries(rows2, table2, k)
  {
    if k > 0 {
      EntriesPrefix(rows1, table1, rows2, table2, k - 1);
    }
  }

  /** What the loop reports is the reference: one entry per row with
      messages, in row order, repeats judged against the earlier rows. */
  lemma {:induction false} ValidateIsReported(rows: seq<Row>, mapping: map<Key, string>)
    ensures Validate(rows, mapping) == Reported(rows, mapping)
  {
    if rows != [] {
      var n := |rows| - 1;
      var init := rows[..n];
      ValidateIsReported(init, mapping);
      forall j | 0 <= j < n
        ensures init[j] == rows[j] && MessageTable(init, mapping)[j] == MessageTable(rows, mapping)[j]
      {
        SeenBeforePrefix(rows, mapping, n, j);
      }
      EntriesPrefix(init, MessageTable(init, mapping), rows, MessageTable(rows, mapping), n);
      SeenRowsIsSeenBefore(init, mapping);
      SeenBeforePrefix(rows, mapping, n, n);
    }
  }

  /** For national ID, payroll number and email, a value met for the first
      time gets no repeat message, and every later non-empty repeat gets
      exactly one. */
  lemma DuplicateReported(rows: seq<Row>, mapping: map<Key, string>, k: nat, t: Key)
    requires k < |rows| && IsTracked(t)
    ensures multiset(RowMessages(rows, mapping, k))[DupMsg(t)] ==
      if Value(rows[k], mapping, t) != "" && exists j :: 0 <= j < k && Value(rows[j], mapping, t) == Value(rows[k], mapping, t)
      then 1 else 0
  {
    FieldsHaveKeys();
    MessagesDupCount(Fields, rows[k], mapping, SeenBefore(rows, mapping, k), t);
  }

  /** A field's presence message appears exactly when its value is empty or
      its column is unmapped. */
  lemma MissingReported(rows: seq<Row>, mapping: map<Key, string>, k: nat, key: Key)
    requires k < |rows|
    ensures MissingMsg(FieldOf(key)) in RowMessages(rows, mapping, k) <==> Value(rows[k], mapping, key) == ""
  {
    FieldsWellFormed();
    MessagesMissing(Fields, rows[k], mapping, SeenBefore(rows, mapping, k), FieldOf(key).caption);
    forall i | 0 <= i < |Fields|
      ensures Fields[i].caption == FieldOf(key).caption <==> Fields[i].key == key
    {
      CaptionNamesField(i, key);
    }
    assert Fields[Rank(key)].key == key;
  }

  /** A format message appears exactly when the value is not empty and breaks
      its field's rule. */
  lemma FormatReported(rows: seq<Row>, mapping: map<Key, string>, k: nat, key: Key)
    requires k < |rows| && HasFormat(key)
    ensures FormatMsg(key) in RowMessages(rows, mapping, k) <==>
      Value(rows[k], mapping, key) != "" && !FormatOk(key, Value(rows[k], mapping, key))
  {
    FieldsHaveKeys();
    MessagesFormat(Fields, rows[k], mapping, SeenBefore(rows, mapping, k), key);
  }

  // ----------------------------------------------------- the error list

  /** There are never more entries than rows; every entry is the entry of a
      row with messages, and every row with messages has its entry. */
  lemma {:induction false} EntriesShape(rows: seq<Row>, table: seq<seq<string>>, n: nat)
    requires n <= |rows| == |table|
    ensures |Entries(rows, table, n)| <= n
    ensures forall e :: e in Entries(rows, table, n) ==>
      e.errors != [] && exists k :: 0 <= k < n && e == RowError(rows[k].rowIndex, table[k], rows[k])
    ensures forall k :: 0 <= k < n && table[k] != [] ==> RowError(rows[k].rowIndex, table[k], rows[k]) in Entries(rows, table, n)
  {
    if n > 0 {
      EntriesShape(rows, table, n - 1);
    }
  }

  /** Rows numbered by their line in the file, as they are when no column
      is called `rowIndex`. */
  predicate Numbered(rows: seq<Row>) {
    forall k :: 0 <= k < |rows| ==> rows[k].rowIndex == Line(k + 2)
  }

  /** No two rows share a `rowIndex`. */
  predicate DistinctTags(rows: seq<Row>) {
    forall i, j :: 0 <= i < j < |rows| ==> rows[i].rowIndex != rows[j].rowIndex
  }

  lemma NumberedDistinct(rows: seq<Row>)
    requires Numbered(rows)
    ensures DistinctTags(rows)
  {
  }

  /** Entry `a` is for a numbered row before that of entry `b`. */
  predicate LineBefore(a: RowError, b: RowError) {
    a.rowIndex.Line? && b.rowIndex.Line? && a.rowIndex.n < b.rowIndex.n
  }

  /** For numbered rows, entries come in row order. */
  lemma {:induction false} EntriesInOrder(rows: seq<Row>, table: seq<seq<string>>, n: nat)
    requires n <= |rows| == |table| && Numbered(rows)
    ensures forall e :: e in Entries(rows, table, n) ==> e.rowIndex.Line? && e.rowIndex.n < n + 2
    ensures forall a, b :: 0 <= a < b < |Entries(rows, table, n)| ==>
      LineBefore(Entries(rows, table, n)[a], Entries(rows, table, n)[b])
  {
    if n > 0 {
      EntriesInOrder(rows, table, n - 1);
      var prev := Entries(rows, table, n - 1);
      var tail := if table[n - 1] != [] then [RowError(rows[n - 1].rowIndex, table[n - 1], rows[n - 1])] else [];
      var all := prev + tail;
      assert Entries(rows, table, n) == all;
      assert rows[n - 1].rowIndex == Line(n + 1);
      forall e | e in all
        ensures e.rowIndex.Line? && e.rowIndex.n < n + 2
      {
        if e in prev {
        } else {
          assert e in tail;
        }
      }
      forall a, b | 0 <= a < b < |all|
        ensures LineBefore(all[a], all[b])
      {
        assert all[a] == prev[a] && prev[a] in prev;
        if b >= |prev| {
          assert all[b] == tail[0];
        } else {
          assert all[b] == prev[b];
        }
      }
      assert Entries(rows, table, n) == all;
    }
  }

  /** `validationErrors.some(error => error.rowIndex === index)` */
  predicate Flagged(errors: seq<RowError>, index: Tag) {
    exists i :: 0 <= i < |errors| && errors[i].rowIndex == index
  }

  /** `uploadedData.filter(...)`: the rows with no entry, the ones uploaded. */
  function ValidRows(rows: seq<Row>, errors: seq<RowError>): seq<Row> {
    if rows == [] then []
    else
      var n := |rows| - 1;
      ValidRows(rows[..n], errors) + (if Flagged(errors, rows[n].rowIndex) then [] else [rows[n]])
  }

  /** The first `n` rows whose messages in `table` are empty, in order. */
  function Accepted(rows: seq<Row>, table: seq<seq<string>>, n: nat): seq<Row>
    requires n <= |rows| == |table|
  {
    if n == 0 then []
    else Accepted(rows, table, n - 1) + (if table[n - 1] == [] then [rows[n - 1]] else [])
  }

  lemma {:induction false} AcceptedPlusEntries(rows: seq<Row>, table: seq<seq<string>>, n: nat)
    requires n <= |rows| == |table|
    ensures |Accepted(rows, table, n)| + |Entries(rows, table, n)| == n
  {
    if n > 0 {
      AcceptedPlusEntries(rows, table, n - 1);
    }
  }

  /** Whatever the tags, a tag is flagged exactly when some row that carries
      it has messages. */
  lemma FlaggedIffShared(rows: seq<Row>, table: seq<seq<string>>, t: Tag)
    requires |rows| == |table|
    ensures Flagged(Entries(rows, table, |rows|), t) <==>
      exists j :: 0 <= j < |rows| && rows[j].rowIndex == t && table[j] != []
  {
    if Flagged(Entries(rows, table, |rows|), t) {
      FlaggedHasRow(rows, table, t);
    }
    if exists j :: 0 <= j < |rows| && rows[j].rowIndex == t && table[j] != [] {
      var j :| 0 <= j < |rows| && rows[j].rowIndex == t && table[j] != [];
      RowIsFlagged(rows, table, j);
    }
  }

  lemma FlaggedHasRow(rows: seq<Row>, table: seq<seq<string>>, t: Tag)
    requires |rows| == |table| && Flagged(Entries(rows, table, |rows|), t)
    ensures exists j :: 0 <= j < |rows| && rows[j].rowIndex == t && table[j] != []
  {
    var errors := Entries(rows, table, |rows|);
    var i :| 0 <= i < |errors| && errors[i].rowIndex == t;
    EntriesShape(rows, table, |rows|);
    assert errors[i] in errors;
    var j :| 0 <= j < |rows| && errors[i] == RowError(rows[j].rowIndex, table[j], rows[j]);
  }

  lemma RowIsFlagged(rows: seq<Row>, table: seq<seq<string>>, j: nat)
    requires j < |rows| == |table| && table[j] != []
    ensures Flagged(Entries(rows, table, |rows|), rows[j].rowIndex)
  {
    var errors := Entries(rows, table, |rows|);
    EntriesShape(rows, table, |rows|);
    var e := RowError(rows[j].rowIndex, table[j], rows[j]);
    assert e in errors;
    var i :| 0 <= i < |errors| && errors[i] == e;
  }

  /** When no two rows share a tag, a row is flagged exactly when it has
      messages. */
  lemma FlaggedIffMessages(rows: seq<Row>, table: seq<seq<string>>, k: nat)
    requires k < |rows| == |table| && DistinctTags(rows)
    ensures Flagged(Entries(rows, table, |rows|), rows[k].rowIndex) <==> table[k] != []
  {
    FlaggedIffShared(rows, table, rows[k].rowIndex);
    if exists j :: 0 <= j < |rows| && rows[j].rowIndex == rows[k].rowIndex && table[j] != [] {
      var j :| 0 <= j < |rows| && rows[j].rowIndex == rows[k].rowIndex && table[j] != [];
      assert !(j < k) && !(k < j);
    }
  }

  lemma {:induction false} ValidRowsPrefix(rows: seq<Row>, table: seq<seq<string>>, n: nat)
    requires n <= |rows| == |table| && DistinctTags(rows)
    ensures ValidRows(rows[..n], Entries(rows, table, |rows|)) == Accepted(rows, table, n)
  {
    if n > 0 {
      ValidRowsPrefix(rows, table, n - 1);
      assert rows[..n][..n - 1] == rows[..n - 1];
      FlaggedIffMessages(rows, table, n - 1);
    }
  }

  /** When no two rows share a `rowIndex` (so always for a file without a
      column of that name), the uploaded set is exactly the rows without
      messages, in order, and together with the error entries it accounts
      for every row; for numbered rows the entries are in row order. */
  lemma ValidPartition(rows: seq<Row>, mapping: map<Key, string>)
    requires DistinctTags(rows)
    ensures ValidRows(rows, Validate(rows, mapping)) == Accepted(rows, MessageTable(rows, mapping), |rows|)
    ensures |ValidRows(rows, Validate(rows, mapping))| + |Validate(rows, mapping)| == |rows|
    ensures Numbered(rows) ==> forall a, b :: 0 <= a < b < |Validate(rows, mapping)| ==>
      LineBefore(Validate(rows, mapping)[a], Validate(rows, mapping)[b])
  {
    var table := MessageTable(rows, mapping);
    ValidateIsReported(rows, mapping);
    ValidRowsPrefix(rows, table, |rows|);
    assert rows[..|rows|] == rows;
    AcceptedPlusEntries(rows, table, |rows|);
    if Numbered(rows) {
      EntriesInOrder(rows, table, |rows|);
    }
  }

  /** Whatever the tags, the upload filter drops a row exactly when some row
      with the same `rowIndex` has messages. */
  lemma ValidateFlags(rows: seq<Row>, mapping: map<Key, string>, t: Tag)
    ensures Flagged(Validate(rows, mapping), t) <==>
      exists j :: 0 <= j < |rows| && rows[j].rowIndex == t && RowMessages(rows, mapping, j) != []
  {
    ValidateIsReported(rows, mapping);
    FlaggedIffShared(rows, MessageTable(rows, mapping), t);
  }

  /** Rows that all carry one `rowIndex` (a `rowIndex` column left blank,
      say) are all dropped as soon as one of them has messages. */
  lemma SharedTagUploadsNothing(rows: seq<Row>, mapping: map<Key, string>, k: nat)
    requires k < |rows| && RowMessages(rows, mapping, k) != []
    requires forall j :: 0 <= j < |rows| ==> rows[j].rowIndex == rows[k].rowIndex
    ensures ValidRows(rows, Validate(rows, mapping)) == []
  {
    ValidateFlags(rows, mapping, rows[k].rowIndex);
    NoneKept(rows, Validate(rows, mapping));
  }

  lemma {:induction false} NoneKept(rows: seq<Row>, errors: seq<RowError>)
    requires forall j :: 0 <= j < |rows| ==> Flagged(errors, rows[j].rowIndex)
    ensures ValidRows(rows, errors) == []
  {
    if rows != [] {
      var n := |rows| - 1;
      assert forall j :: 0 <= j < n ==> rows[..n][j] == rows[j];
      NoneKept(rows[..n], errors);
    }
  }

  /** Every entry carries the row index, messages and row of a row that has
      messages, there is one for every such row, and never more entries
      than rows. */
  lemma ValidateEntries(rows: seq<Row>, mapping: map<Key, string>)
    ensures |Validate(rows, mapping)| <= |rows|
    ensures forall e :: e in Validate(rows, mapping) ==>
      e.errors != [] && exists k :: 0 <= k < |rows| && e == RowError(rows[k].rowIndex, RowMessages(rows, mapping, k), rows[k])
    ensures forall k :: 0 <= k < |rows| && RowMessages(rows, mapping, k) != [] ==>
      RowError(rows[k].rowIndex, RowMessages(rows, mapping, k), rows[k]) in Validate(rows, mapping)
  {
    ValidateIsReported(rows, mapping);
    EntriesShape(rows, MessageTable(rows, mapping), |rows|);
  }

  // ------------------------------------------------------------- methods

  /** The checks of one field with value `value`: the messages it pushes
      and the `add` to the set it keeps. */
  method CheckField(field: Field, value: string, seen: Seen) returns (pushed: seq<string>, after: Seen)
    ensures pushed == FieldMessages(field, value, seen)
    ensures after == Note(field.key, value, seen)
  {
    pushed := [];
    var ids, payrolls, emails := seen.ids, seen.payrolls, seen.emails;
    if field.required && value == "" {
      pushed := pushed + [MissingMsg(field)];
    }
    if value != "" {
      if !FormatOk(field.key, value) {
        pushed := pushed + [FormatMsg(field.key)];
      }
      if field.key == NationalId {
        if value in ids {
          pushed := pushed + [DupMsg(NationalId)];
        }
        ids := ids + {value};
      } else if field.key == Email {
        if value in emails {
          pushed := pushed + [DupMsg(Email)];
        }
        emails := emails + {value};
      } else if field.key == PayrollNumber {
        if value in payrolls {
          pushed := pushed + [DupMsg(PayrollNumber)];
        }
        payrolls := payrolls + {value};
      }
    }
    after := Seen(ids, payrolls, emails);
  }

  /** The inner loop over the fields `fs` of one row (the field list in
      `validateData`). */
  method CheckRow(fs: seq<Field>, row: Row, mapping: map<Key, string>, seen: Seen) returns (messages: seq<string>, after: Seen)
    ensures messages == Messages(fs, row, mapping, seen)
    ensures after == SeenAfter(fs, row, mapping, seen)
  {
    messages := [];
    after := seen;
    for j := 0 to |fs|
      invariant messages == Messages(fs[..j], row, mapping, seen)
      invariant after == SeenAfter(fs[..j], row, mapping, seen)
    {
      assert fs[..j + 1][..j] == fs[..j];
      var pushed;
      pushed, after := CheckField(fs[j], Value(row, mapping, fs[j].key), after);
      messages := messages + pushed;
    }
    assert fs[..|fs|] == fs;
  }

  /** `validateData`: the loop over the rows. */
  method ValidateRows(rows: seq<Row>, mapping: map<Key, string>) returns (errors: seq<RowError>)
    ensures errors == Validate(rows, mapping)
  {
    errors := [];
    var seen := NoneSeen;
    for i := 0 to |rows|
      invariant errors == Validate(rows[..i], mapping)
      invariant seen == SeenRows(rows[..i], mapping)
    {
      assert rows[..i + 1][..i] == rows[..i];
      var messages, after := CheckRow(Fields, rows[i], mapping, seen);
      if |messages| > 0 {
        errors := errors + [RowError(rows[i].rowIndex, messages, rows[i])];
      }
      seen := after;
    }
    assert rows[..|rows|] == rows;
  }
}
