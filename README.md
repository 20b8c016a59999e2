# CGPA calculator transcript core, in Dafny

This project models the transcript core of the CGPA calculator demo page:

- The course list. It is shared state (`courseArrayAtom`) with a copy in browser storage.
- The add-course dialog: three form cells, the credit stepper, the grade picker's toggles, the submit handler and the reset of the form when the dialog closes.
- The table's Delete action.
- The CSV import loop.
- The CSV exporter `convertToCSV`.

The modules follow the source files:

| module | file | what it holds |
|---|---|---|
| `Courses` | `courses.dfy` | The course record and the six grades. The text form of a credit (`IntToString`, which is `toString` on an integral number) and of a grade (`GradeText`, the string a grade is stored as), with readers that invert them. |
| `Csv` | `csv.dfy` | `convertToCSV` as a loop (`ConvertToCsv`), specified by functions on the course list (`Selected`, `EncodeRow`, `CsvText`). The source expressions are the functions `Join` (`.join`), `IsSelected` (the truthiness of `row.selected`), `Escape` (`.replace(/"/g, '""')`), `Quote` (the template literal around the escaped value), `FieldValue` (`row[header]`) and `EncodeRow` (one `values.join(",")`). A reference reader (`ParseCsv`) for the format it writes: quoted fields as in section 2 of RFC 4180, with records separated by one line feed. |
| `DataTable` | `data_table.dfy` | The Delete filter: keep the records whose code differs from the clicked row's code. |
| `AddCourse` | `add_course.dfy` | The form cells as a class, plus the grade picker's toggle array as a class over an `array<bool>`. |
| `Page` | `page.dfy` | The course list and the storage entry as classes. The submit handler, the reset effect, hydration, persistence and the CSV import. |

The validation schema `courseSchema`, imported by the page from `columns.tsx`, is not part of this model. The model takes it as a parameter `schema: Course -> bool`: `schema(c)` means `courseSchema.safeParse(c)` succeeds, which is the same as `courseSchema.parse(c)` not throwing. JavaScript's `undefined` is `None` of an `Option` wherever the source can produce it: the field `selected`, `grades[i]` out of range, `prev[i]?.course` and a missing storage entry.

Main results:

- `Csv.CsvRoundTrip`: reading an export back gives the header and then, for each selected course in input order, its code, credit and grade. This holds whatever the course code contains (quotes, commas, line feeds).
- `Csv.ExportedRowReimports`: every exported record decodes to the exported course. The only difference is that `selected` comes back absent.
- `DataTable.DeleteRow`: Delete removes exactly the records sharing the clicked row's code. Every other record is kept, order and multiplicity included (`KeepOthersConcat`, `KeepOthersMultiset`).
- `Page.AddKeepsValid`, `Page.ImportKeepsValid` and `Page.DeleteKeepsValid`: adding, importing and deleting keep "every record passes the schema".
- `AddCourse.GradeToggles.Press`: exactly one toggle is pressed afterwards, and it is the chosen grade.

## Model

| member | source | states |
|---|---|---|
| `Courses.GradeIndex` | src/components/cgpa/page.tsx:104 | every grade sits at one index of the six-grade list `["A",…,"F"]` |
| `Courses.GradeAt` | src/components/cgpa/page.tsx:111 | `grades[courseIndex]` is defined exactly for indices 0 to 5, and the grade it gives has that index |
| `Courses.GradeFromText` | src/components/cgpa/columns.tsx:8 | a string read as a grade is that grade's text |
| `Courses.GradeTextRoundTrip` | src/components/cgpa/columns.tsx:8 | each grade's text reads back as the same grade |
| `Courses.NatToString` | src/components/cgpa/csvDownloader.ts:19 | the text of a non-negative credit is a non-empty string of decimal digits without a leading zero: it starts with `0` only for zero, which is written `0` |
| `Courses.NatToStringRoundTrip` | src/components/cgpa/csvDownloader.ts:19 | the decimal text of a natural number reads back as that number |
| `Courses.IntToStringRoundTrip` | src/components/cgpa/csvDownloader.ts:19 | the text that `toString` gives an integral credit, a minus sign included for a negative one, reads back as the same credit |
| `Csv.Selected` | src/components/cgpa/csvDownloader.ts:15-16 | the export never holds more data records than there are input records |
| `Csv.SelectedMembers` | src/components/cgpa/csvDownloader.ts:15-23 | an exported record is a selected input record; every selected input record is exported; nothing is exported exactly when no record is selected |
| `Csv.SelectedConcat` | src/components/cgpa/csvDownloader.ts:15-23 | the selected records keep their input order: the filter distributes over concatenation |
| `Csv.QuoteField` | src/components/cgpa/csvDownloader.ts:18-19 | a missing value (`?? ""`) is written as the empty quoted field |
| `Csv.Cells` | src/components/cgpa/csvDownloader.ts:17-20 | each column gives exactly one cell |
| `Csv.EncodeRows` | src/components/cgpa/csvDownloader.ts:15-23 | each exported course gives exactly one record |
| `Csv.EncodeRowsConcat` | src/components/cgpa/csvDownloader.ts:15-23 | records are encoded one by one, in order |
| `Csv.ExportStep` | src/components/cgpa/csvDownloader.ts:15-22 | one turn of the `forEach`: row `i` adds its record exactly when it is selected |
| `Csv.ConvertToCsv` | src/components/cgpa/csvDownloader.ts:8-26 | the loop returns the specified text: empty input gives "", otherwise the header record followed by one record per selected course, joined by line feeds |
| `Csv.EscapeConcat` | src/components/cgpa/csvDownloader.ts:19 | the global quote replacement works character by character |
| `Csv.EscapeWithoutQuotes` | src/components/cgpa/csvDownloader.ts:19 | a value with no double quote is written unchanged |
| `Csv.EscapeRoundTrip` | src/components/cgpa/csvDownloader.ts:19 | reading a value whose quotes are doubled, up to the closing quote, gives back the original value |
| `Csv.QuotedFieldRoundTrip` | src/components/cgpa/csvDownloader.ts:19 | a quoted cell reads back as exactly its value and leaves the rest of the text alone |
| `Csv.HeaderLineText` | src/components/cgpa/csvDownloader.ts:11-12 | the header record is `course,credit,grade`, unquoted |
| `Csv.EncodeRowText` | src/components/cgpa/csvDownloader.ts:17-21 | a data record is the quoted course, credit and grade, separated by commas |
| `Csv.QuotedRecord` | src/components/cgpa/csvDownloader.ts:19-21 | three quoted cells joined by commas read back as one record of the three values |
| `Csv.HeaderRecordRoundTrip` | src/components/cgpa/csvDownloader.ts:11-12 | the header record reads back as the three column names |
| `Csv.RowRecordRoundTrip` | src/components/cgpa/csvDownloader.ts:17-21 | a data record reads back as the course's code, credit text and grade text, whatever the code contains |
| `Csv.RowsRoundTrip` | src/components/cgpa/csvDownloader.ts:15-25 | data records joined by line feeds read back as the records' fields, in order |
| `Csv.CsvRoundTrip` | src/components/cgpa/csvDownloader.ts:8-26 | reading the export gives exactly the header followed by the fields of each selected course, in input order; an empty list reads as no records |
| `Csv.HeaderFirst` | src/components/cgpa/csvDownloader.ts:9-25 | a non-empty list's export starts with the header line, and with no selected course it is the header line alone |
| `Csv.CsvRecordCount` | src/components/cgpa/csvDownloader.ts:9-25 | an export reads back as one record more than there are selected courses (the header), and its text is empty exactly when the list is |
| `Csv.NoTrailingNewline` | src/components/cgpa/csvDownloader.ts:25 | the text never ends in a line feed |
| `Csv.ExportedRowReimports` | src/components/cgpa/csvDownloader.ts:17-21 | the `k`-th exported data record decodes to the `k`-th selected course, with `selected` absent |
| `DataTable.KeepOthers` | src/components/cgpa/data-table.tsx:96-100 | the filter never makes the list longer |
| `DataTable.KeepOthersMembers` | src/components/cgpa/data-table.tsx:96-100 | a kept record is in the list and has another code; every record with another code is kept |
| `DataTable.KeepOthersLength` | src/components/cgpa/data-table.tsx:96-100 | the filter removes exactly as many records as carry the target code; an undefined target removes none |
| `DataTable.DeleteRow` | src/components/cgpa/data-table.tsx:94-103 | Delete on row `i` removes the clicked record and every other record with its code, keeps all others, and shortens the list by the number of records with that code; on an index outside the list `prev[i]?.course` is `undefined` (line 99), which no code equals, so it changes nothing |
| `DataTable.UndefinedTargetKeepsAll` | src/components/cgpa/data-table.tsx:99 | comparing with `undefined` keeps every record |
| `DataTable.KeepOthersConcat` | src/components/cgpa/data-table.tsx:96-100 | the kept records stay in their original relative order |
| `DataTable.KeepOthersIdempotent` | src/components/cgpa/data-table.tsx:96-100 | filtering again by the same code removes nothing further |
| `DataTable.DeleteSameCodeAgain` | src/components/cgpa/data-table.tsx:94-103 | after a Delete no record with the deleted code remains, so deleting by it again changes nothing |
| `DataTable.KeepOthersMultiset` | src/components/cgpa/data-table.tsx:96-100 | records with another code keep their multiplicity; records with the target code all go |
| `AddCourse.FormAtoms.constructor` | src/components/cgpa/add-course.tsx:32-34 | the form cells start as "", 0 and 5, a valid state |
| `AddCourse.FormAtoms.TypeCourseCode` | src/components/cgpa/add-course.tsx:69-71 | the course code becomes exactly the typed text |
| `AddCourse.FormAtoms.ChooseSuggestion` | src/components/cgpa/add-course.tsx:46-53 | picking completion `k`, by mouse or keyboard (lines 91-98), sets that example code |
| `AddCourse.FormAtoms.DecreaseCredit` | src/components/cgpa/add-course.tsx:127-134 | minus lowers the credit by one only while it is positive, so a valid form stays valid |
| `AddCourse.FormAtoms.IncreaseCredit` | src/components/cgpa/add-course.tsx:151-153 | plus raises the credit by one, with no upper bound |
| `AddCourse.GradeToggles.constructor` | src/components/cgpa/add-course.tsx:166-168 | the initial toggles are six slots with only the current grade's slot pressed |
| `AddCourse.GradeToggles.Press` | src/components/cgpa/add-course.tsx:178-185 | pressing grade `index` sets the grade index to it and replaces the toggles by a fresh array in which exactly that slot is pressed |
| `AddCourse.OnlyPressedCount` | src/components/cgpa/add-course.tsx:181-183 | an array with only one slot pressed has one pressed slot |
| `AddCourse.NonePressed` | src/components/cgpa/add-course.tsx:182 | an array cleared with `fill(false)` has no pressed slot |
| `Page.Candidate` | src/components/cgpa/page.tsx:104-112 | the record built on submit has `selected` false, the form's code and credit, and the grade at the form's index; it exists exactly when that index names a grade |
| `Page.Accepted` | src/components/cgpa/page.tsx:206-215 | an import never keeps more rows than were parsed |
| `Page.AcceptedMembers` | src/components/cgpa/page.tsx:206-215 | an imported row is a parsed row that passes the schema, and every such row is imported |
| `Page.AcceptedConcat` | src/components/cgpa/page.tsx:208-215 | rows are accepted one by one and keep their parse order |
| `Page.ValidEntries` | src/components/cgpa/page.tsx:206-215 | the loop collects exactly the parsed rows that validate, in order |
| `Page.AddKeepsValid` | src/components/cgpa/page.tsx:113-115 | appending a record that passes the schema keeps every record valid |
| `Page.ImportKeepsValid` | src/components/cgpa/page.tsx:206-216 | appending the imported rows keeps every record valid |
| `Page.DeleteKeepsValid` | src/components/cgpa/data-table.tsx:94-103 | Delete keeps every record valid |
| `Page.Transcript.constructor` | src/components/cgpa/page.tsx:41 | the shared course list starts empty |
| `Page.Transcript.Delete` | src/components/cgpa/data-table.tsx:94-103 | the list becomes the result of the Delete filter on its old value |
| `Page.CourseForm.ButtonHandler` | src/components/cgpa/page.tsx:103-121 | a submit succeeds exactly when the candidate record exists and passes the schema, and on a valid form exactly when the schema accepts the record of the form's code, credit and grade; on success it is appended and the dialog closes; otherwise list and dialog are unchanged |
| `Page.CourseForm.ResetEffect` | src/components/cgpa/page.tsx:123-129 | a closed dialog puts the form back to "", 0 and 5, which is valid; an open one leaves it alone |
| `Page.CourseForm.SubmitAndSettle` | src/components/cgpa/page.tsx:103-129 | a successful submit appends exactly the candidate record built from the form before the reset, after the old records, and closes the dialog; if the dialog was open, the effect then blanks the form to "", 0 and 5; a failed submit changes neither list, dialog nor form |
| `Page.Page.Hydrate` | src/components/cgpa/page.tsx:155-164 | with a stored entry the list becomes it; with no entry and an empty list an empty entry is stored; with no entry and a non-empty list nothing changes |
| `Page.Page.Persist` | src/components/cgpa/page.tsx:150-153 | after a change the stored entry holds the list |
| `Page.Page.PersistThenHydrate` | src/components/cgpa/page.tsx:150-164 | storing the list and then hydrating from the entry gives the same list back |
| `Page.Page.ImportCsv` | src/components/cgpa/page.tsx:195-216 | parser errors only raise a warning; the rows that validate are appended after the existing list in parse order |

## Left out

- GPA computation is not part of this model: it lives outside the modelled files.
- `courseSchema` is a parameter. Its rules are not part of this model, because its definition is not among the modelled files.
- `courseSchema.parse` may return a copy with unknown keys removed. The model keeps the parsed row itself.
- `Papa.parse` is not modelled. The import receives the parsed rows and the number of parse errors. `dynamicTyping`, header mapping and the parser's own quoting rules are therefore not modelled. `ParseCsv` is a reference reader for the exported format, not a model of Papa Parse.
- JSON encoding of the storage entry is not modelled: the entry holds the course list itself. Neither is the entry's text being truthy: an entry stored as the empty string counts as absent in JavaScript, and the model has no such entry.
- Page.Candidate: for a grade index outside 0 to 5, `grades[courseIndex]` is `undefined`, and the model assumes no schema accepts a record whose grade is `undefined`, so the submit fails. The schema's rules are not modelled, so this is an assumption. Every writer of the grade index keeps it in range (add-course.tsx:34 and 179, page.tsx:127), and on such a form `ButtonHandler` leaves the decision to the schema alone.
- Hydration loads the stored list without validating it, as the code does. The model follows the code here, although the list is meant to hold only records that pass the schema.
- `FileReader`, the file input's reset, the `Blob`, the download link and its file name are browser I/O and are left out.
- Toasts and `console.log` are left out. The Delete filter raises its "was deleted" toast for every record it examines, kept ones included, not only for the removed ones.
- Delete receives the row index already parsed; `parseInt(row.id)` on the table's row id is not modelled.
- React rendering, effect scheduling and dependency lists are left out. Effects are the methods `ResetEffect`, `Hydrate` and `Persist`, called at the points where React would run them. `SubmitAndSettle` runs `ResetEffect` only when the submit changed the open flag, as the dependency list of page.tsx:129 does.
- The autocomplete popover's open state, the input's focus handling and dialog layout are UI only and are left out.
- Bulk delete and select-all are not in the modelled files, so they are not part of this model.
- Courses.IntToString: covers integral credits only. Fractional credits, exponent notation and precision beyond 2^53 of JavaScript numbers are not modelled, because every credit the form produces is an integer stepped from 0.
- The export joins records with a line feed, as the code does, not the CR LF of RFC 4180.
