# eKYC admin console: a verified model of its core rules

The console is a React front end for a government staff eKYC (electronic
know-your-customer) service. Ministries and agencies invite staff members
to verify their identity. Administrators review the verification requests,
upload staff lists in bulk and buy verification credits. The data layer is
mocked in two service files. This project models the rules behind those
screens and services, and proves properties of the model:

- **Bulk staff upload.** Modules `UploadParse`, `UploadValidate` and
  `UploadWizard`.
  - CSV text becomes rows, at most 100.
  - Column headers are guessed onto the eleven staff fields.
  - Every row is checked for presence, format (national ID, KRA PIN, email,
    Kenyan mobile number) and repeats within the batch.
  - The four-step wizard is a class whose handlers update its state.
- **The KYC request service.** Module `KycService`.
  - The hard-coded login.
  - The `getAll` query: filter, stable sort, then paginate.
  - Look-up and in-place status update on the stored requests.
  - The dashboard counters: statuses, types, genders, age buckets and
    district tallies.
- **The verification-request list.** Module `KycVerification`: the
  five-slot page-number window, the status totals, avatar initials, row
  selection, and the filter/tab/page handlers of the list screen.
- **The staff list.** Module `StaffManagement`: search and drop-down
  filters, 20-per-page pagination, status cards, invitations, the CSV
  export and its read-back, and the "Also in" note.
- **The ministry and staff services.** Module `MinistryService`.
  - Create and update are modelled as JavaScript object spreads over maps.
  - Look-ups by parsed id.
  - The `getAllStaff` filters.
  - The bulk-upload tally.
- **The ministry screen.** Module `MinistryManagement`: search, add, edit
  (the form merged over the entry), confirmed delete, header totals and
  the verification rate.
- **Billing.** Module `Billing`.
  - The credit packages and the per-operation credit weights.
  - Filling in the daily totals in place, and the usage total.
  - M-PESA and bank-transfer payments with their effect on the balance and
    the history.
  - The dialog's close guard.
- **The request detail page.** Module `KycDetails`: document zoom and
  rotation, the liveness frame player and the progress tracker.

Shared modules:

- `Wrappers`: `Option` and `Result`.
- `Text`: JavaScript's `trim`, `split`, `join`, `includes`,
  `toLowerCase`, `parseInt`, `slice` and `Math.ceil` on integers, each
  with its own lemmas.
- `Lists`: `filter`, `filter().length`, `find` and `findIndex`.
- `Records`: the ministry and staff records.

In the JavaScript, `null` and missing string properties are modelled as
`""`. Date-time stamps are integers (milliseconds), and the local time zone
is taken to be UTC. "Today", `Date.now()` ids, invoice numbers and payment
references are parameters.

Points where the code behaves otherwise than one might expect, and the
model follows the code:

- The header "Dept" is not mapped onto the department field. The code has
  no such synonym, and "dept" does not contain "department".
- `handleUpload` itself has no "all rows invalid" guard. The button that
  calls it is disabled when the error list is as long as the row list
  (`src/components/Upload/BulkUpload.js:450`). `ClickUpload` models the
  button and `Upload` the handler.
- The staff service's search (`src/services/ministryService.js:241-256`)
  does not look at the job title, while the staff screen's search does.
- The request list's "Reset" keeps the current page. Only a filter input, a
  status tab or the per-page selector go back to page 1.
- The staff screen does not go back to page 1 when a filter changes.
- The request list fetches from an effect that depends only on the page and
  the filters object (`src/components/KYC/KYCVerification.js:36-38`). The
  per-page selector sets the limit and page 1 (`:530-533`). On page 1 that
  changes neither dependency, so nothing is fetched, and the table keeps the
  rows fetched with the old limit until the page or a filter changes.
  `RequestList.LimitChange`, `RequestList.Settle` and
  `LimitChangeOnFirstPage` state this behaviour.
- A row object keeps its line number under the key `rowIndex` next to the
  cells (`src/components/Upload/BulkUpload.js:67-70`). A CSV column called
  `rowIndex` therefore overwrites the number with its cell text. The upload
  filter (`:184-186`) matches entries to rows by that key. When the column
  is blank on every line, one invalid row stops every row, while the button
  stays enabled and shows the count of rows less errors (`:449-452`). The
  drop-downs never offer that column (`:333`). `UploadValidate.ValidateFlags`
  and `UploadWizard.EnabledButNothingUploaded` state this behaviour.

## Model

| member | source | states |
|---|---|---|
| UploadParse.FieldsWellFormed | src/components/Upload/BulkUpload.js:24-36 | There are eleven fields, and each key has exactly one entry, at its rank in the list. |
| UploadParse.StemInjective | src/components/Upload/BulkUpload.js:24-36 | Distinct fields have distinct labels, so a message that names a label names one field. |
| UploadParse.CleanCellsReadBack | src/components/Upload/BulkUpload.js:64 | A line made by joining cells with commas, each cell free of commas, `"` and white space at either end, reads back as exactly those cells. |
| UploadParse.QuotedSpaceKept | src/components/Upload/BulkUpload.js:64 | Quotes are removed only after trimming, so a quoted cell without commas or quotes reads back exactly as enclosed, white space at its ends included: `" a"` reads as ` a`. |
| UploadParse.NonBlank | src/components/Upload/BulkUpload.js:61 | No kept line is blank once trimmed, and no line is added. |
| UploadParse.NonBlankExactly | src/components/Upload/BulkUpload.js:61 | Exactly the lines that are not all white space survive, and nothing else. |
| UploadParse.RowCells | src/components/Upload/BulkUpload.js:66-70 | The row object has a key for exactly the header names. |
| UploadParse.RowCellsLastWins | src/components/Upload/BulkUpload.js:66-70 | A header that does not recur gets the cell at its own position, or `""` when the line is short. |
| UploadParse.AllRows | src/components/Upload/BulkUpload.js:65-72 | One row per data line. |
| UploadParse.RowIndexOf | src/components/Upload/BulkUpload.js:67-70 | Without a `rowIndex` column, a row's index is its line number `k + 2`. The row object has a single key space, so with such a column the cell of the last one replaces the number. |
| UploadParse.ParsedRows | src/components/Upload/BulkUpload.js:61-74 | A file yields a result exactly when it has a non-blank line; the first such line gives the headers; row `k` is the object built from data line `k` at position `k`; at most 100 rows are kept. |
| UploadParse.HeaderOnlyFile | src/components/Upload/BulkUpload.js:63-97 | A file whose only non-blank line is the header line, with or without line breaks and blank lines after it, still yields a result: that line's headers and no rows, so the mapping step still opens. |
| UploadParse.FirstMatch | src/components/Upload/BulkUpload.js:79-90 | The result is the first field whose rule claims the header, and nothing when no field does. |
| UploadParse.MappingWithStep | src/components/Upload/BulkUpload.js:77-94 | Each further header, if it is claimed, overwrites the field it claims and leaves the rest of the mapping alone. |
| UploadParse.MappingLastWins | src/components/Upload/BulkUpload.js:91-93 | A field is mapped exactly when some header claims it, and then it is mapped to the last header that does. |
| UploadParse.MappedColumnsAreHeaders | src/components/Upload/BulkUpload.js:76-94 | The automatic mapping only names columns of the file. |
| UploadParse.BuildRow | src/components/Upload/BulkUpload.js:67-71 | The literal `{ rowIndex: index + 2 }` and the `forEach` that fills it build `RowOf`: every header gets its cell, and a header called `rowIndex` overwrites the number. |
| UploadParse.AutoMap | src/components/Upload/BulkUpload.js:76-94 | The `forEach` over the headers builds the mapping in which each header goes to its first claiming field and the last claim wins. |
| UploadParse.BuildRows | src/components/Upload/BulkUpload.js:65-72 | The loop over the data lines gives every line's row object, built at its own position. |
| UploadParse.ParseContent | src/components/Upload/BulkUpload.js:59-101 | The reader's `onload` computes the result of parsing the file text. |
| UploadParse.ReadLines | src/components/Upload/BulkUpload.js:63-94 | Once blank lines are gone, the headers, kept rows and mapping are those of the parsing function. |
| UploadParse.ReplaceMarker | src/components/Upload/BulkUpload.js:211 | `replace(' *', '')` on a label ending in its marker, with no other `*`, gives the bare label. |
| UploadParse.StemHasNoStar | src/components/Upload/BulkUpload.js:24-36 | No bare label contains `*`. |
| UploadParse.TemplateHeadersAreStems | src/components/Upload/BulkUpload.js:210-213 | The template's header line holds every field's label without its marker, in field order. |
| UploadValidate.MessageTable | src/components/Upload/BulkUpload.js:109-169 | One message list per row, each judged against the rows before it. |
| UploadValidate.SeenAfterTracked | src/components/Upload/BulkUpload.js:125-157 | Going over a row's fields adds exactly that row's non-empty national ID, payroll number and email to the three sets. |
| UploadValidate.FieldDupCount | src/components/Upload/BulkUpload.js:125-157 | One field yields a repeat message once, exactly when it is that tracked field, its value is non-empty and it was seen before. |
| UploadValidate.MessagesDupCount | src/components/Upload/BulkUpload.js:112-160 | Over fields with distinct keys, a row gets at most one repeat message per tracked field, exactly when the value is non-empty and was seen before. |
| UploadValidate.FieldMissing | src/components/Upload/BulkUpload.js:116-118 | `Missing <label>` comes from a field exactly when the field has that label, is required and its value is empty. |
| UploadValidate.MessagesMissing | src/components/Upload/BulkUpload.js:112-160 | A row has `Missing <label>` exactly when some required field with that label has no value. |
| UploadValidate.FieldFormat | src/components/Upload/BulkUpload.js:121-151 | A format message comes only from its own field, and only for a non-empty value that breaks the rule. |
| UploadValidate.MessagesFormat | src/components/Upload/BulkUpload.js:112-160 | A row has a format message exactly when that field's value is non-empty and breaks its rule. |
| UploadValidate.FieldsHaveKeys | src/components/Upload/BulkUpload.js:24-36 | The field list has every key, once each. |
| UploadValidate.CaptionNamesField | src/components/Upload/BulkUpload.js:24-36 | A label belongs to exactly one field. |
| UploadValidate.SeenRowsIsSeenBefore | src/components/Upload/BulkUpload.js:105-169 | After the loop, the three `Set`s hold exactly the non-empty values met in the rows. |
| UploadValidate.ValidateIsReported | src/components/Upload/BulkUpload.js:103-172 | The error list the loop builds is the reference: in order, one entry for each row that has messages. |
| UploadValidate.DuplicateReported | src/components/Upload/BulkUpload.js:125-157 | For national ID, payroll number and email, the first occurrence of a value gets no repeat message, and every later non-empty repeat gets exactly one. |
| UploadValidate.MissingReported | src/components/Upload/BulkUpload.js:113-118 | `Missing <label>` appears exactly when the field's value is empty or its column is unmapped. |
| UploadValidate.FormatReported | src/components/Upload/BulkUpload.js:121-151 | A format message appears exactly when the value is non-empty and breaks its rule: eight digits; letter, nine digits, letter; `a@b.c`; or a `+254`, `254` or `0` prefix then `[7-9]` and eight digits, once spaces are removed. |
| UploadValidate.EntriesShape | src/components/Upload/BulkUpload.js:162-168 | There are never more entries than rows. Each entry is the index, messages and data of a row with messages, and every such row has its entry. |
| UploadValidate.EntriesInOrder | src/components/Upload/BulkUpload.js:109-169 | For rows numbered by line, entries come in increasing row number. |
| UploadValidate.AcceptedPlusEntries | src/components/Upload/BulkUpload.js:184-186 | The rows without messages and the entries together number exactly the rows. |
| UploadValidate.FlaggedIffShared | src/components/Upload/BulkUpload.js:184-186 | Whatever the indexes, the `some` test matches an index exactly when some row carrying it has messages. |
| UploadValidate.FlaggedIffMessages | src/components/Upload/BulkUpload.js:184-186 | When no two rows share a `rowIndex`, a row has an entry with its index exactly when it has messages. |
| UploadValidate.ValidRowsPrefix | src/components/Upload/BulkUpload.js:184-186 | When no two rows share a `rowIndex`, the `filter` by row index keeps exactly the rows without messages, in order. |
| UploadValidate.ValidPartition | src/components/Upload/BulkUpload.js:184-186 | When no two rows share a `rowIndex`, which always holds for a file without such a column, the uploaded set is exactly the rows without messages, in order. Together with the error entries it accounts for every row; for numbered rows the entries are in row order. |
| UploadValidate.ValidateFlags | src/components/Upload/BulkUpload.js:184-186 | Whatever the indexes, the upload filter drops a row exactly when some row with the same `rowIndex` has messages. |
| UploadValidate.SharedTagUploadsNothing | src/components/Upload/BulkUpload.js:184-186 | When every row carries one `rowIndex`, as when a `rowIndex` column is left blank, one row with messages stops every row from being uploaded. |
| UploadValidate.ValidateEntries | src/components/Upload/BulkUpload.js:103-172 | Each entry belongs to a row with messages and carries them; every such row is reported; there are never more entries than rows. |
| UploadValidate.CheckField | src/components/Upload/BulkUpload.js:112-159 | One field's checks push its presence, format and repeat messages in order, and record its value in the right set. |
| UploadValidate.CheckRow | src/components/Upload/BulkUpload.js:112-160 | The inner `forEach` pushes the row's messages and updates the sets as the reference does. |
| UploadValidate.ValidateRows | src/components/Upload/BulkUpload.js:103-172 | The outer loop builds the reference error list. |
| UploadWizard.ParsedWellFormed | src/components/Upload/BulkUpload.js:65-74 | Parsed rows are never more than 100. Without a `rowIndex` column they are numbered by line; with one, each row's index is its cell in that column. |
| UploadWizard.ChoicesAreHeaders | src/components/Upload/BulkUpload.js:333 | Once rows are loaded, each mapping drop-down offers exactly the file's headers other than `rowIndex`. |
| UploadWizard.ReadyIffAllMapped | src/components/Upload/BulkUpload.js:380-381 | "Validate Data" is enabled exactly when every field is mapped to a non-empty column. |
| UploadWizard.UploadDisabledIffNoneValid | src/components/Upload/BulkUpload.js:449-450 | "Upload Valid Records" is disabled exactly when every row has messages. When no two rows share a `rowIndex`, that is exactly when no row would be uploaded. |
| UploadWizard.EnabledButNothingUploaded | src/components/Upload/BulkUpload.js:449-452 | With a `rowIndex` column whose cells are all equal, one row with messages and one without leave the button enabled, showing at least one valid record, while the filter uploads no row. |
| UploadWizard.Wizard.constructor | src/components/Upload/BulkUpload.js:6-13 | The wizard starts on step 1 with no file, rows, mapping, errors or ministry, and 0 progress. |
| UploadWizard.Wizard.Load | src/components/Upload/BulkUpload.js:59-98 | With no result nothing changes. Otherwise the rows and the automatic mapping are replaced and step 2 opens; the old error list is kept. |
| UploadWizard.Wizard.ParseFile | src/components/Upload/BulkUpload.js:57-101 | The file text's parse result is loaded, as `Load` describes. |
| UploadWizard.Wizard.Take | src/components/Upload/BulkUpload.js:41-42 | A taken file is marked chosen and parsed; the ministry and progress are kept. |
| UploadWizard.Wizard.MarkFile | src/components/Upload/BulkUpload.js:41 | `setSelectedFile` marks a file as chosen and keeps the wizard valid. |
| UploadWizard.Wizard.SelectFile | src/components/Upload/BulkUpload.js:38-46 | Only a CSV or Excel MIME type is taken. Any other file, or none, changes nothing. |
| UploadWizard.Wizard.Drop | src/components/Upload/BulkUpload.js:48-55 | A dropped file is taken whatever its type; no MIME check is made. |
| UploadWizard.Wizard.SelectMinistry | src/components/Upload/BulkUpload.js:258-261 | Only the ministry changes. |
| UploadWizard.Wizard.ChooseColumn | src/components/Upload/BulkUpload.js:324-336 | The field now reads one of the offered columns, or `""` for "Select Column"; only that entry of the mapping changes. |
| UploadWizard.Wizard.ValidateData | src/components/Upload/BulkUpload.js:171-172 | The error list is replaced by the current rows' reference list, and step 3 opens. |
| UploadWizard.Wizard.ClickValidate | src/components/Upload/BulkUpload.js:380-381 | Until every required field is mapped nothing changes; then validation runs. |
| UploadWizard.Wizard.BackToMapping | src/components/Upload/BulkUpload.js:444 | Back to step 2 with everything else kept. |
| UploadWizard.Wizard.Upload | src/components/Upload/BulkUpload.js:175-195 | With no ministry nothing changes. Otherwise step 4 opens, even when no row is gone over, and progress ends at 100 (at 0 when no row is gone over). When no two rows share a `rowIndex`, the rows gone over number rows less error entries. |
| UploadWizard.Wizard.Advance | src/components/Upload/BulkUpload.js:188-191 | The progress loop ends at 100% after the last row, and stays at 0 with no rows. |
| UploadWizard.Wizard.ClickUpload | src/components/Upload/BulkUpload.js:447-453 | When every row has an error entry the disabled button changes nothing. Otherwise, with a ministry chosen, the upload completes, and its progress reaches 100 whenever no two rows share a `rowIndex`. |
| UploadWizard.Wizard.Reset | src/components/Upload/BulkUpload.js:197-208 | Back to step 1 with no file, rows, mapping, errors or ministry, and 0 progress. |
| KycService.Login | src/services/api.js:280-316 | Login succeeds exactly for `user`/`password`, with the fixed token and user; anything else fails with the fixed message. |
| KycService.EndOfDay | src/services/api.js:373 | `setHours(23,59,59,999)` gives the last millisecond of the same day. |
| KycService.Filter | src/services/api.js:348-375 | Every kept request is a stored one and passes each given filter: status, type, search, and from/to dates. |
| KycService.FilterComplete | src/services/api.js:348-375 | No request that passes every filter is dropped. |
| KycService.Insert | src/services/api.js:378-386 | Inserting into a sorted list keeps it sorted and adds exactly that element. |
| KycService.SortStable | src/services/api.js:378-386 | The sort gives a sorted permutation of its input. |
| KycService.InsertKeepsTies | src/services/api.js:378-386 | Insertion keeps the elements of each key in order, with the new one after those that share its key. |
| KycService.SortKeepsTies | src/services/api.js:378-386 | The sort is stable: the elements with any one key come out in their old order. |
| KycService.SortMatchesOrder | src/services/api.js:378-386 | The matches are permuted, descending by the date field for `:desc` and ascending otherwise, with requests of equal date in their stored order. A field that is not a date, or no sort, leaves the order alone. |
| KycService.SortMatchesTies | src/services/api.js:378-386 | Sorted on a date, the requests that share any one date keep their stored order. |
| KycService.SortMatchesMembers | src/services/api.js:378-386 | Sorting keeps the same requests and their number. |
| KycService.IntOr | src/services/api.js:389-390 | `parseInt(v) \|\| d` is the parsed number unless it is `NaN` or 0, and `d` then. |
| KycService.GetAllFilters | src/services/api.js:342-410 | Every result is a stored request that passes every given filter. `totalResults` is the number of matches, and every match is in the sorted list. |
| KycService.GetAllPages | src/services/api.js:389-402 | An absent page or limit defaults to 1 and 10. `IntOr` states the `parseInt(...) \|\| d` rule behind it. |
| KycService.PaginateWindow | src/services/api.js:391-402 | Results are the matches `[(page-1)*limit, page*limit)`, never more than `limit`. `totalPages` is the least page count that holds every match. |
| KycService.CountStatus | src/services/api.js:455-457 | The count is the length of the `filter` by that status, so it never exceeds the number of requests. |
| KycService.CountType | src/services/api.js:460-465 | The count is the length of the `filter` by that verification type, so it never exceeds the number of requests. |
| KycService.CountGender | src/services/api.js:516-520 | The count is the length of the `filter` by that gender on the national ID, so it never exceeds the number of requests. |
| KycService.StatusCountsBounded | src/services/api.js:455-457 | Pending, approved and rejected together never exceed the number of requests. |
| KycService.CountAdults | src/services/api.js:496-513 | The count is the length of the `filter` keeping holders aged 18 or more, so it never exceeds the requests. |
| KycService.AgeBucketsCountAdults | src/services/api.js:496-513 | The four age buckets together count exactly the holders aged 18 or more, so under-18s and unknown ages are left out. |
| KycService.CountWithDistrict | src/services/api.js:523-533 | The count is the length of the `filter` keeping requests with a district, so it never exceeds the requests. |
| KycService.TallyCounts | src/services/api.js:523-533 | The district tally has a key for exactly the districts that occur, each with its number of requests. |
| KycService.TallySum | src/services/api.js:523-533 | The district counts add up to the number of requests with a district. |
| KycService.FindIndex | src/services/api.js:428 | `findIndex` gives the first request with that id, or none when none has it. |
| KycService.KycStore.constructor | src/services/api.js:12 | The store holds the given requests. |
| KycService.KycStore.GetById | src/services/api.js:411-424 | The result is found exactly when some request has that id. It is then the first stored request with that id; otherwise the fixed not-found error. |
| KycService.KycStore.UpdateStatus | src/services/api.js:425-446 | An unknown id fails and keeps the store. Otherwise only the first request with that id changes: its status, remarks and update time. That updated request is returned. |
| KycService.KycStore.DashboardStats | src/services/api.js:451-588 | The loops compute the counters: the total, statuses, ID cards, age buckets, genders and district tally. |
| KycVerification.SmallWindow | src/components/KYC/KYCVerification.js:484-488 | With five pages or fewer the buttons are exactly pages `1..totalPages`. |
| KycVerification.LargeWindow | src/components/KYC/KYCVerification.js:489-495 | With more than five pages and a page in range the buttons are five consecutive real pages, one of them the current page. |
| KycVerification.WindowInRange | src/components/KYC/KYCVerification.js:484-495 | Every button names a page between 1 and the page count. |
| KycVerification.TotalsCount | src/components/KYC/KYCVerification.js:178-187 | `all` (pending + approved + rejected) never exceeds the loaded requests, and equals their number exactly when each has one of the three statuses. |
| KycVerification.Initials | src/components/KYC/KYCVerification.js:168-175 | At most two characters, and `U` for an empty name. |
| KycVerification.InitialsCases | src/components/KYC/KYCDetails.js:139-146 | Without a space the initial is the first character. With one, it is the first character before the first space, then the first character after it. |
| KycVerification.InitialsOfTwoWords | src/components/KYC/KYCVerification.js:168-175 | Two words give their two first letters. |
| KycVerification.QueryPage | src/components/KYC/KYCVerification.js:44-54 | The page and limit sent are the ones the service reads back. |
| KycVerification.Toggle | src/components/KYC/KYCVerification.js:115-121 | A selected id is removed and every other id kept; an unselected id is appended. |
| KycVerification.Without | src/components/KYC/KYCVerification.js:117 | The filter removes that id and keeps every other one. |
| KycVerification.WithoutAppend | src/components/KYC/KYCVerification.js:117 | Removing an id from two parts of the selection removes it from each, so the other ids keep their order. |
| KycVerification.WithoutCopies | src/components/KYC/KYCVerification.js:117 | Every other id keeps all its copies, and the removed id keeps none. |
| KycVerification.ToggleTwice | src/components/KYC/KYCVerification.js:115-121 | Ticking then unticking a box restores the selection. |
| KycVerification.FetchedPage | src/components/KYC/KYCVerification.js:40-71 | A fetch loads requests that pass the filters: exactly that page of the newest-first matches, never more than the limit. |
| KycVerification.RequestList.constructor | src/components/KYC/KYCVerification.js:15-38 | The list starts on page 1 of 10 with no filters, the "all" tab and no selection, with the mount fetch due. |
| KycVerification.RequestList.Fetch | src/components/KYC/KYCVerification.js:40-71 | The service's page of matches is loaded, the page count is at least 1, the selection is cleared, and no fetch is due. |
| KycVerification.RequestList.Settle | src/components/KYC/KYCVerification.js:36-38 | The effect fetches exactly when a fetch is due; otherwise the rows, totals and selection stay. Page, limit and filters never change. |
| KycVerification.RequestList.Receive | src/components/KYC/KYCVerification.js:57-64 | The results and totals are kept, a 0 page count becomes 1, and the selection is cleared. The page is the same value, so no new fetch becomes due. |
| KycVerification.RequestList.FilterChange | src/components/KYC/KYCVerification.js:73-77 | One filter changes, page 1 is shown, a fetch is due, and nothing else changes. |
| KycVerification.RequestList.PageChange | src/components/KYC/KYCVerification.js:84-88 | Only a page in `1..totalPages` is taken; any other leaves the page. A fetch becomes due exactly when the page changes. |
| KycVerification.RequestList.ResetFilters | src/components/KYC/KYCVerification.js:94-103 | Every filter is emptied and the "all" tab chosen; the page is kept. The new filters object makes a fetch due. |
| KycVerification.RequestList.ClearSearch | src/components/KYC/KYCVerification.js:262 | Only the search term is emptied, and a fetch is due. |
| KycVerification.RequestList.StatusTabClick | src/components/KYC/KYCVerification.js:105-113 | The tab is chosen and page 1 shown. "all" clears the status filter; any other tab sets it. A fetch is due. |
| KycVerification.RequestList.LimitChange | src/components/KYC/KYCVerification.js:530-533 | The new per-page limit, and page 1. The limit is not a dependency of the fetch effect, so a fetch becomes due only when the page was not already 1. |
| KycVerification.LimitChangeOnFirstPage | src/components/KYC/KYCVerification.js:530-533 | A list opened on page 1 whose limit then changes shows the new limit, but after the next render still the rows fetched with the limit of 10. |
| KycVerification.RequestList.RowSelect | src/components/KYC/KYCVerification.js:115-121 | The selection toggles that id, and nothing else changes. |
| KycVerification.RequestList.SelectAllClick | src/components/KYC/KYCVerification.js:123-130 | The flag flips. The selection becomes every id on the page, or empty when the flag was set. |
| StaffManagement.FilteredExactly | src/components/Staff/StaffManagement.js:185-199 | A member is listed exactly when the search, the ministry and the status all match, in list order. |
| StaffManagement.NoFilterListsAll | src/components/Staff/StaffManagement.js:185-199 | An empty search and no filter list everyone. |
| StaffManagement.MinistryFilterExact | src/components/Staff/StaffManagement.js:195 | Choosing ministry `k` keeps exactly the members of ministry `k`. |
| StaffManagement.SearchCaseOnlyMattersForNationalId | src/components/Staff/StaffManagement.js:186-193 | Case in the term matters only through the case-sensitive national ID match. |
| StaffManagement.TotalPagesBounds | src/components/Staff/StaffManagement.js:201 | No pages when nothing is listed, and at least one otherwise. |
| StaffManagement.PageWindow | src/components/Staff/StaffManagement.js:201-203 | Page `p` is the window `[(p-1)*20, p*20)` of the filtered list: at most 20 members, and at least one for a page in range. |
| StaffManagement.PageOfIndex | src/components/Staff/StaffManagement.js:201-203 | Every listed member is on the page its position gives. |
| StaffManagement.PagerStaysInRange | src/components/Staff/StaffManagement.js:507-527 | Previous and Next keep a page in `[1, totalPages]`, and step by one where they can. |
| StaffManagement.StatusCountIgnoresFilters | src/components/Staff/StaffManagement.js:220-222 | A status card counts the whole list, as the list filtered by that status alone. |
| StaffManagement.StatusCountsBounded | src/components/Staff/StaffManagement.js:220-222 | The four status cards never add up to more than the staff list. |
| StaffManagement.Invite | src/components/Staff/StaffManagement.js:251-257 | Only the member with that id changes: invitation sent today, status pending. The length and every other member are kept. |
| StaffManagement.InviteIdempotent | src/components/Staff/StaffManagement.js:251-257 | Sending the same invitation twice is sending it once; an unknown id changes nothing. |
| StaffManagement.InvitePending | src/components/Staff/StaffManagement.js:251-257 | The pending count grows by the invited members that were not yet pending. |
| StaffManagement.OrNA | src/components/Staff/StaffManagement.js:237-238 | A missing date becomes `N/A`; a present one is kept. |
| StaffManagement.CsvLineReadsBack | src/components/Staff/StaffManagement.js:240 | A line of plain cells splits back into those cells and holds no line break. |
| StaffManagement.CsvTextReadsBack | src/components/Staff/StaffManagement.js:240 | A table of plain rows reads back line by line and cell by cell. |
| StaffManagement.HeaderIsPlain | src/components/Staff/StaffManagement.js:226 | The header has eleven cells, none holding a comma or line break. |
| StaffManagement.ExportReadsBack | src/components/Staff/StaffManagement.js:224-240 | When no cell holds a comma or line break, the exported text reads back as the header and then each member's row. |
| StaffManagement.AlsoIn | src/components/Staff/StaffManagement.js:427 | The note is shown exactly for a member flagged as employed twice. |
| StaffManagement.OtherMinistriesExactly | src/components/Staff/StaffManagement.js:427 | The note lists the flagged ministries other than the member's own, and nothing else. |
| StaffManagement.StaffScreen.constructor | src/components/Staff/StaffManagement.js:6-12 | The loaded list, no search or filter, page 1. |
| StaffManagement.StaffScreen.Search | src/components/Staff/StaffManagement.js:333 | Only the search term changes; the page is not reset. |
| StaffManagement.StaffScreen.SelectMinistry | src/components/Staff/StaffManagement.js:352 | Only the ministry filter changes. |
| StaffManagement.StaffScreen.ClearFilters | src/components/Staff/StaffManagement.js:377-386 | Both drop-downs and the search are emptied, so every member is listed. |
| StaffManagement.StaffScreen.SelectStatus | src/components/Staff/StaffManagement.js:367 | Only the status filter changes. |
| StaffManagement.StaffScreen.SendInvitation | src/components/Staff/StaffManagement.js:251-257 | The list becomes the invited list. |
| StaffManagement.StaffScreen.Previous | src/components/Staff/StaffManagement.js:507-515 | Steps back unless on page 1 or with a single page, staying within `[1, totalPages]`. |
| StaffManagement.StaffScreen.Next | src/components/Staff/StaffManagement.js:519-527 | Steps forward unless on the last page or with a single page, staying within `[1, totalPages]`. |
| MinistryService.CreateMinistry | src/services/ministryService.js:92-104 | The input's keys plus id, counts and date. Both counts are 0 and the date is today, whatever the input says; the id is the clock unless the input has one. |
| MinistryService.UpdateMinistry | src/services/ministryService.js:107-117 | The input plus `updatedAt` today. The id is the parsed argument unless the input carries its own. |
| MinistryService.CreateStaff | src/services/ministryService.js:275-289 | A new member is `not_invited`, not sent an invitation, with no documents or liveness check and today's date, whatever the input says. |
| MinistryService.UpdateStaff | src/services/ministryService.js:292-302 | The input plus `updatedAt` today. The id is the parsed argument unless the input carries its own. |
| MinistryService.CreateMinistryOverridesCounts | src/services/ministryService.js:92-104 | Inputs that differ only in counts and date create the same ministry. |
| MinistryService.CreateStaffOverridesDefaults | src/services/ministryService.js:275-289 | Inputs that differ only in status, flags and date create the same member. |
| MinistryService.UpdateId | src/services/ministryService.js:107-117 | An update of id `n` returns `n` unless the input carries an id, which then wins. |
| MinistryService.GetMinistryByIdFirst | src/services/ministryService.js:86-89 | The result is the first ministry with the parsed id; a non-numeric id finds nothing. |
| MinistryService.GetAllStaff | src/services/ministryService.js:258-263 | No pagination: `total` is the number of results, page defaults to 1 and limit to 20. |
| MinistryService.GetAllStaffSelects | src/services/ministryService.js:241-256 | The three filters keep, in order, exactly the members that pass every given filter. |
| MinistryService.NoFiltersReturnAll | src/services/ministryService.js:241-263 | With no filters the whole list is returned, with page 1 and limit 20. |
| MinistryService.GetStaffByIdFirst | src/services/ministryService.js:269-272 | The result is the first member with the parsed id; a non-numeric id finds nothing. |
| MinistryService.BulkUploadStaff | src/services/ministryService.js:327-342 | `total` is the number of records. |
| MinistryService.SuccessPlusFailed | src/services/ministryService.js:330-333 | Every record is counted as either successful or failed. |
| MinistryService.BulkTally | src/services/ministryService.js:330-338 | `successful + failed == total`. There is one error entry per failed record, in input order, with its row index and messages. |
| MinistryManagement.SetFieldOnly | src/components/Ministry/MinistryManagement.js:176-179 | An input change sets that input and leaves the other seven alone. |
| MinistryManagement.Merge | src/components/Ministry/MinistryManagement.js:152-156 | The edited entry carries the form's eight fields and keeps its id, counts and creation date. |
| MinistryManagement.MergeFormOf | src/components/Ministry/MinistryManagement.js:129-156 | Saving an unchanged edit form leaves the entry as it was. |
| MinistryManagement.NewMinistry | src/components/Ministry/MinistryManagement.js:157-167 | A new entry carries the form, the clock as its id, zero staff and today's date. |
| MinistryManagement.FilterMinistriesExactly | src/components/Ministry/MinistryManagement.js:109-113 | An entry is shown exactly when its name, code or type contains the term, ignoring case; an empty term shows all. |
| MinistryManagement.DeleteExactly | src/components/Ministry/MinistryManagement.js:144-148 | Every entry with that id goes and every other one stays, as often as it occurs; an absent id changes nothing. |
| MinistryManagement.DeleteAppend | src/components/Ministry/MinistryManagement.js:144-148 | Deleting from two parts of the list deletes from each, so the remaining entries keep their order; a single entry stays exactly when its id differs. |
| MinistryManagement.DeleteCount | src/components/Ministry/MinistryManagement.js:144-148 | The list shrinks by exactly the number of entries with that id. |
| MinistryManagement.ApplyEdit | src/components/Ministry/MinistryManagement.js:152-156 | Only the entries with the selected id change, each to the form merged over it. |
| MinistryManagement.TotalsAppend | src/components/Ministry/MinistryManagement.js:228-234 | The header totals add up over a concatenation. |
| MinistryManagement.CreateKeepsTotals | src/components/Ministry/MinistryManagement.js:157-167 | Adding an entry leaves both header totals as they were. |
| MinistryManagement.EditKeepsTotals | src/components/Ministry/MinistryManagement.js:152-156 | Saving an edit leaves both header totals as they were. |
| MinistryManagement.VerificationRate | src/components/Ministry/MinistryManagement.js:191-193 | The rate is 0 for an entry with no staff, and between 0 and 100 when no more are verified than employed. |
| MinistryManagement.MinistryScreen.constructor | src/components/Ministry/MinistryManagement.js:6-21 | The loaded list, no search, no dialog, no selection, an empty form of type `ministry`. |
| MinistryManagement.MinistryScreen.Search | src/components/Ministry/MinistryManagement.js:217 | Only the search term changes. |
| MinistryManagement.MinistryScreen.AddMinistry | src/components/Ministry/MinistryManagement.js:115-127 | The add dialog opens with type `ministry` and every other field empty. |
| MinistryManagement.MinistryScreen.EditMinistry | src/components/Ministry/MinistryManagement.js:129-142 | The entry is selected, its fields are in the form and the edit dialog is open. |
| MinistryManagement.MinistryScreen.DeleteMinistry | src/components/Ministry/MinistryManagement.js:144-148 | A confirmed delete removes the entries with that id; an unconfirmed one changes nothing. |
| MinistryManagement.MinistryScreen.InputChange | src/components/Ministry/MinistryManagement.js:176-179 | The one input changes. |
| MinistryManagement.MinistryScreen.Submit | src/components/Ministry/MinistryManagement.js:150-168 | With the edit dialog open, the selected entry is edited; otherwise exactly one new entry is appended. The dialogs close. |
| MinistryManagement.MinistryScreen.ClickSave | src/components/Ministry/MinistryManagement.js:329 | A form missing a required input changes nothing; a complete one is submitted. |
| MinistryManagement.MinistryScreen.CloseModal | src/components/Ministry/MinistryManagement.js:170-174 | Both dialogs close and the selection is cleared. |
| Billing.PackagesGetCheaper | src/components/Billing/Billing.js:28-33 | Bigger packages give more credits for more money, at a lower price per credit. |
| Billing.FillTotals | src/components/Billing/Billing.js:69-71 | Each day's total becomes `5*id + 3*liveness + 2*text`, with every other field kept. |
| Billing.FilledDays | src/components/Billing/Billing.js:69-71 | After the fill every total is right, and no day's cost changes. |
| Billing.UsageTotalIsSumOfDays | src/components/Billing/Billing.js:467-470 | The usage total is `5*Σid + 3*Σliveness + 2*Σtext`, which is the sum of the daily costs and, once filled, of the daily totals. |
| Billing.Credited | src/components/Billing/Billing.js:125-129 | Purchased and remaining each rise by the credits; used and plan are unchanged. |
| Billing.CreditedKeepsSpent | src/components/Billing/Billing.js:125-129 | A purchase keeps `purchased - remaining`, and two purchases add up. |
| Billing.Receipt | src/components/Billing/Billing.js:132-142 | The entry's amount is the package's price and its credits the package's credits. |
| Billing.BillingScreen.constructor | src/components/Billing/Billing.js:14-25 | The loaded balance and history, M-PESA chosen, no dialog, package, phone or payment in progress. |
| Billing.BillingScreen.OpenPurchase | src/components/Billing/Billing.js:322-325 | The dialog opens with no package chosen. |
| Billing.BillingScreen.SelectPackage | src/components/Billing/Billing.js:709 | That package is chosen. |
| Billing.BillingScreen.SetPaymentMethod | src/components/Billing/Billing.js:725-731 | The payment method is set. |
| Billing.BillingScreen.SetPhone | src/components/Billing/Billing.js:761-762 | The phone number is set, except while a payment is processing. |
| Billing.BillingScreen.PayWithMpesa | src/components/Billing/Billing.js:113-116 | Without a phone number or a package nothing happens; otherwise the payment for that package is processing. |
| Billing.BillingScreen.MpesaConfirmed | src/components/Billing/Billing.js:121-142 | The package's credits are added and one paid M-PESA entry goes in front of the unchanged history. |
| Billing.BillingScreen.PaymentReset | src/components/Billing/Billing.js:145-150 | The dialog closes and is cleared. |
| Billing.BillingScreen.BankTransferNotice | src/components/Billing/Billing.js:154-169 | One pending entry with the bank reference goes in front of the history and the dialog closes; the balance is untouched. |
| Billing.BillingScreen.CloseModal | src/components/Billing/Billing.js:685-690 | Closing is ignored while a payment is processing; otherwise the dialog closes and the package is cleared. |
| KycDetails.ZoomStaysInRange | src/components/KYC/KYCDetails.js:290-296 | Zoom stays in `[0.5, 3]` and moves by a quarter until a bound; one click back undoes one click away from a bound. |
| KycDetails.RotateRightAngles | src/components/KYC/KYCDetails.js:298-300 | Rotation stays in {0, 90, 180, 270}, and four turns bring it back. |
| KycDetails.DocumentViewer.constructor | src/components/KYC/KYCDetails.js:286-288 | The first document (if any) is selected, at zoom 1 and rotation 0. |
| KycDetails.DocumentViewer.ClickZoomIn | src/components/KYC/KYCDetails.js:290-292 | `min(z + 0.25, 3)`, staying in range. |
| KycDetails.DocumentViewer.ClickZoomOut | src/components/KYC/KYCDetails.js:294-296 | `max(z - 0.25, 0.5)`, staying in range. |
| KycDetails.DocumentViewer.ClickRotate | src/components/KYC/KYCDetails.js:298-300 | `(r + 90) mod 360`, staying a right angle. |
| KycDetails.DocumentViewer.SelectDocument | src/components/KYC/KYCDetails.js:354 | That document is selected; zoom and rotation carry over. |
| KycDetails.NextFrame | src/components/KYC/KYCDetails.js:45-47 | The next frame index is within `[0, len)`. |
| KycDetails.Advance | src/components/KYC/KYCDetails.js:45-47 | Any number of frame steps stays within `[0, len)`. |
| KycDetails.AdvanceWraps | src/components/KYC/KYCDetails.js:45-47 | `k` steps from frame `i` reach `(i + k) mod len`, so `len` steps come back to the start. |
| KycDetails.LivenessPlayer.constructor | src/components/KYC/KYCDetails.js:14-16 | Stopped on the first frame. |
| KycDetails.LivenessPlayer.FramesChanged | src/components/KYC/KYCDetails.js:21-27 | New frames reset the index to 0 and stop playback. |
| KycDetails.LivenessPlayer.Toggle | src/components/KYC/KYCDetails.js:30-61 | With no frames nothing happens; otherwise playing flips. |
| KycDetails.LivenessPlayer.Tick | src/components/KYC/KYCDetails.js:45-47 | A frame step of the running animation moves to the next frame, in range. |
| KycDetails.LivenessPlayer.MarkerClick | src/components/KYC/KYCDetails.js:100-108 | The clicked frame is shown and playback stops. |
| KycDetails.ProgressSteps | src/components/KYC/KYCDetails.js:520-529 | Four steps. Information is always complete; Documents when there are documents; Liveness when there is a check; Verification when the status is not pending. |
| KycDetails.DecisionCompletesVerification | src/components/KYC/KYCDetails.js:496-513 | Approving or rejecting completes the Verification step and changes no other step. |
| Text.TrimEmptyIffBlank | src/components/Upload/BulkUpload.js:61 | `trim()` is empty exactly when the line is all white space. |
| Text.SplitJoin | src/components/Staff/StaffManagement.js:240 | Splitting what was joined gives the parts back, when no part holds the separator. |
| Text.ParseIntToString | src/components/Staff/StaffManagement.js:195 | `parseInt` of an integer's text gives the integer back. |
| Text.ContainsIffOccurs | src/components/Upload/BulkUpload.js:79-90 | `includes` finds a text exactly when it occurs at some position. |
| Text.JsSlice | src/services/api.js:393 | For `0 <= start <= end`, `slice` is the clamped window and holds at most `end - start` elements. |
| Text.CeilDiv | src/services/api.js:398 | `Math.ceil(n / d)` is the least page count of size `d` holding `n`. |
| Lists.KeepMembers | src/services/ministryService.js:241-256 | `filter` keeps exactly the elements that pass, each as often as it occurs in the input. |
| Lists.KeepAppend | src/services/ministryService.js:241-256 | Filtering a concatenation filters each part, so the kept elements stay in their order. |
| Lists.KeepKeep | src/services/ministryService.js:241-256 | Two filters in a row keep what passes both. |
| Lists.FindFirst | src/services/ministryService.js:86-89 | `find` returns the first element that passes. |

## Left out

- Browser I/O is left out: `FileReader`, the Blob/URL/anchor downloads, the clipboard and `alert`. `parseFile` is a function of the file text, and the template and export are functions giving the file text. The confirmation box of a delete is a boolean parameter.
- The axios instance and its interceptors, `localStorage` and the `window.location` redirects are left out. Only the credential rule and the fixed response of `login` are modelled.
- Timers, Promises and the `requestAnimationFrame` loop are left out. Each handler is modelled as the state step it ends in. `MpesaConfirmed` is the step after the wait, `PaymentReset` the later timer, and `Tick` one frame of the animation.
- `Math.random`, `Date.now()` and `new Date()` are parameters: ids, invoice numbers, references, "today", the current year and the clock.
- Floating-point display is left out: `toFixed`, the file size in MB, the credit percentages, the price per credit and the liveness confidence. The upload progress and the verification rate are exact reals. `VerificationRate` is the value before rounding.
- Locale date and time formatting is left out.
- The presentational files are left out: `Analytics.js`, `Dashboard.js`, `Reports.js`, `MainLayout.js`, `Login.js`, `App.js` and `mockBillingData.js`. So is all JSX rendering except for the enabled/disabled rules of the buttons modelled.
- `getDashboardStats` is left out beyond the counters derived from the requests. Its randomly generated trends and the `analyticsService` charts are left out.
- Of the ministry and staff services, `getAllMinistries`, `deleteMinistry`, `deleteStaff`, `sendInvitation`, `getDashboardStats` and `generateReport` are left out. They return canned data after a delay and contain no rule.
- StaffManagement.ExportReadsBack: the export does no CSV quoting, so the read-back is stated only for cells without a comma or line break.
- MinistryManagement.MinistryScreen.ClickSave: the browser's own `type="email"` check on the email input is not modelled. Only the six `required` inputs gate the submit.
- MinistryService.GetAllStaff: `page` and `limit` are taken as integers, with 0 meaning absent. The truthiness of other JavaScript values is not modelled.
- Billing.BillingScreen.PayWithMpesa: the pay button is disabled while a payment is processing, but that guard is not modelled apart from the handler. A second call while processing starts the same package again.
- Text.ToLower: `toLowerCase` is modelled on ASCII letters only.
- KycService.EndOfDay: the local time zone is taken to be UTC, so the end of a day is a whole number of days minus one millisecond.
- UploadWizard.Wizard.Upload: the valid rows are not sent anywhere, because `handleUpload` only advances the progress bar.
- The mapping drop-downs' options are a set. The order in which `Object.keys` lists them, with integer-like keys first, is not modelled.
- A header named `__proto__` is modelled as an ordinary column. In the source, assigning a string to that key of the row object is ignored.
- `KycService.GetAll` is a function of the stored requests, so it cannot change them. The copy it sorts is a value.
