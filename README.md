# Form-maker: a verified model of the form schema, validator and editors

Form-maker lets an administrator define forms made of ordered fields of eight types (text, textarea,
number, email, date, checkbox, radio, select). A radio or select option may carry nested fields, one level
deep on the server. Members of the public fill the forms in. The server validates every submission
against the form's current field list and stores it tagged with the form's `version`; the administrator
can list the submissions and export them as CSV.

This project models the core of that system in Dafny and proves what the code promises. One module
stands for each source file:

- `Validation` (server/utils/validation.js): `ValidateField` is a function; `ValidateSubmission` is a loop proved equal to a write-log specification.
- `Admin` (server/routes/admin.js): class `Store` (forms by id, submissions) with create / update / delete methods; version policy and pagination.
- `Export` (the CSV export in server/routes/admin.js): the `forEach` header and row builders as methods, proved equal to a CSV function.
- `PublicForms` (server/routes/forms.js): decision functions.
- `Submissions` (server/routes/submissions.js): decision function.
- `FormModel`, `SubmissionModel`, `ClientTypes` (server/models/Form.js, server/models/Submission.js, client/src/types/index.ts): datatypes, defaults, setters.
- `Editor` (client/src/components/AdminPanel.tsx): field list, reorder, slug, dialog and option handlers.
- `Renderer` (client/src/components/FormRenderer.tsx): answer and error map updates.
- `Sanitizer` (server/middleware/sanitize.js): recursive value transform; the object loop as a method. The plain-object test is a parameter: the middleware (`SanitizeInput`, `SanitizeObject`) uses the source's `obj.constructor === Object`, and `PrototypeTest` is the corrected test of the fourth finding.
- `FieldOrder` (the sort by `order` that four readers share): stable insertion sort.
- `AnswerKeys` (the `<parent>_<nested>` answer key that the page, the validator and the export share): one key function.
- `Js`, `Wrappers` (JavaScript semantics the code relies on): `Value`, truthiness, `String`, `trim`, UTF-16 length, property reads, `Option`.

JavaScript values are `Js.Value = Null | Bool | Num(real) | Str | Arr | Obj`. An answer map is
`map<string, Value>`, and an absent key stands for `undefined`. Engine services whose behaviour lives
outside the code are fields of a `Js.Runtime` value that every caller passes in, and the model never
fixes them. These services are number formatting, `Number(string)`, `Date` parsing, `RegExp`
compilation and `test`, `JSON.stringify` and `toISOString`.

Where the code departs from the behaviour its design describes, the model follows the code:

- A checkbox answer that is not an array is refused with "must be an array". This includes `true`,
  which the single-checkbox widget sends, so a required single checkbox can never be satisfied
  (`Validation.AgreeChecked`).
- A user pattern is applied with `RegExp.prototype.test`. That call searches the string; it does not
  require a full match (`Validation.TextRules`).
- The field name is not checked against `[a-z0-9-]+` anywhere on the server. Only the editor's slug
  produces such names (`Editor.SlugShape`).

## Model

| member | source | states |
|---|---|---|
| `Validation.ValidateField` | server/utils/validation.js:3-89 | a blank value (null, undefined or '') yields exactly `["<label> is required"]` when the field is required and nothing otherwise, so no type rule runs; at most three messages |
| `Validation.NumberRules` | server/utils/validation.js:22-34 | an unreadable number yields only "must be a number"; otherwise the min message appears iff value < min and the max message iff value > max (inclusive bounds), and nothing else appears |
| `Js.Utf16LengthOfBmp` | server/utils/validation.js:39-42 | `length` counts UTF-16 code units; it equals the number of characters exactly when none lies outside the Basic Multilingual Plane |
| `Js.PropertyRead` | server/utils/validation.js:98 | `answers[name]` yields the own answer when there is one, otherwise an `Object.prototype` member for an inherited name, otherwise `undefined` |
| `Validation.TextRules` | server/utils/validation.js:36-54 | length messages iff `String(value).length`, counted in UTF-16 code units, is below minLength / above maxLength; the format message iff a non-empty pattern compiles and `test` finds no match; a pattern that does not compile adds nothing |
| `Validation.ChoiceRules` | server/utils/validation.js:63-73 | no options gives "has no options defined"; otherwise no error iff the value strictly equals some option value, else exactly "must be one of the provided options" |
| `Validation.CheckboxRules` | server/utils/validation.js:75-85 | any non-array gets "must be an array"; an array is unchecked without options; with options there is at most one error, present iff some element is not an option value |
| `Validation.EmailRule` | server/utils/validation.js:15-20 | no error iff `String(value)` matches the e-mail pattern, else exactly the e-mail message |
| `Validation.EmailPatternShape` | server/utils/validation.js:16 | the pattern accepts exactly the strings with no white space, exactly one '@' with text before it, and a '.' after the character following the '@' that is not the last character |
| `Validation.EmailShapeOfPattern` | server/utils/validation.js:16 | one direction of the pattern characterisation: a match has the plain-terms shape |
| `Validation.PatternOfEmailShape` | server/utils/validation.js:16 | the other direction: the plain-terms shape matches the pattern |
| `Validation.DateRule` | server/utils/validation.js:56-61 | no error iff `new Date(value)` is a valid date |
| `Validation.UnknownTypeRule` | server/utils/validation.js:14-86 | a nested field whose type string is none of the eight names is checked only for presence |
| `Validation.InvalidItems` | server/utils/validation.js:79-80 | the filter keeps exactly the elements that are not option values |
| `Validation.OptionValues` | server/utils/validation.js:68 | `options.map(opt => opt.value)`, element by element |
| `Validation.ChoiceValues` | server/utils/validation.js:68 | the same projection for a nested field's options |
| `Validation.FindOption` | server/utils/validation.js:107 | None iff no option value strictly equals the answer; otherwise the first option that does |
| `AnswerKeys.NestedKey` | server/utils/validation.js:110 | the nested key is the parent name, '_', the nested name; the page (FormRenderer.tsx:49) and the export (admin.js:195) build the same key |
| `AnswerKeys.NestedKeyInjective` | server/utils/validation.js:110 | under one parent, different nested names give different keys |
| `AnswerKeys.NestedKeyAmbiguous` | client/src/components/FormRenderer.tsx:49 | across parents the key is ambiguous: `a` / `b_c` and `a_b` / `c` both give `a_b_c` |
| `Validation.SortedFields` | server/utils/validation.js:95 | the fields are visited as a permutation of the form's fields in ascending `order` |
| `Validation.OwnWrites` | server/utils/validation.js:99-104 | a field stores at most one list under its own name |
| `Validation.NestedWrite` | server/utils/validation.js:110-115 | a nested field stores at most one list under its compound key |
| `Validation.CascadeCases` | server/utils/validation.js:106-108 | the cascade writes nothing unless the field is radio/select with a truthy value that selects an option, and then exactly that option's nested writes |
| `Validation.ValidateNested` | server/utils/validation.js:109-116 | the inner loop's error map and flag are the given ones after the nested writes, in order |
| `Validation.VisitField` | server/utils/validation.js:97-119 | one outer iteration extends the error map and flag by that field's writes (own check, then cascade) |
| `Validation.ValidateSubmission` | server/utils/validation.js:91-125 | the loop's result equals the write-log specification `Validate`; `isValid` iff the error map is empty |
| `Validation.ValidIffEmptyErrors` | server/utils/validation.js:121-124 | `isValid` is true exactly when `errors` is empty |
| `Validation.ErrorsShape` | server/utils/validation.js:97-118 | every error key is a field's name or `<name>_<nested>` for a nested field of one of its options, and every stored list has 1 to 3 messages |
| `Validation.UniqueFieldReported` | server/utils/validation.js:98-104 | a field no other field can write over is reported iff its own check fails, with exactly that list |
| `Validation.ApplyLastWrite` | server/utils/validation.js:102 | after a write log, a key holds the messages of the last write to it |
| `Validation.ApplyKeepsLastWrites` | server/utils/validation.js:102-113 | a key is held iff some write targets it, and then with the last such write's messages |
| `Validation.ErrorsAreLastWrites` | server/utils/validation.js:97-119 | for every form and key, the error map holds the key iff some write of the visit (own check or cascade, in ascending `order`) targets it, with the messages of the last such write; a nested key `<p>_<n>` and a top-level field of that name overwrite each other the same way |
| `Validation.LaterFieldOverwrites` | server/utils/validation.js:102 | of two fields with one name, the one with the larger `order` overwrites the earlier list, whatever their stored order |
| `Validation.ValidIffNoWrites` | server/utils/validation.js:93-123 | `isValid` iff no field of the form, own check or cascade, produces an error |
| `Validation.WritesEmpty` | server/utils/validation.js:97-119 | the log is empty iff every visited field writes nothing |
| `Validation.FieldWritesEmpty` | server/utils/validation.js:98-118 | a field writes nothing iff its own answer passes and, when it selects an option, every nested answer passes |
| `Validation.NestedWritesEmpty` | server/utils/validation.js:109-116 | the nested loop writes nothing iff every nested answer passes |
| `Validation.WritesShape` | server/utils/validation.js:97-118 | every write carries 1 to 3 messages under a key of one of the visited fields |
| `Validation.AgreeMissing` | server/utils/validation.js:6-10 | a required checkbox `agree` without an answer gives `{agree: ["agree is required"]}` |
| `Validation.EmojiTooLong` | server/utils/validation.js:42-44 | one emoji is two UTF-16 code units, so it breaks a maximum length of 1 |
| `Validation.InheritedNameNeverMissing` | server/utils/validation.js:98-99 | as written, a required field named like an `Object.prototype` member passes the presence test without an own answer |
| `Validation.MissingRequiredReported` | server/utils/validation.js:98-104 | reading own answers only, a required field without an answer is reported with exactly the required message, whatever its name, when no other field writes under that name |
| `Validation.ConstructorMissing` | server/utils/validation.js:6-10 | a required field named `constructor` without an answer is reported missing |
| `Validation.AgreeChecked` | server/utils/validation.js:76-77 | the answer `true` for that checkbox gives `{agree: ["agree must be an array"]}` |
| `Validation.AgeTooHigh` | server/utils/validation.js:30-32 | 70 for a number field bounded 18..65 gives only the "at most" message |
| `Validation.AgeNotANumber` | server/utils/validation.js:23-25 | an unreadable number gives only "must be a number", no bound message |
| `Validation.CountryOtherNeedsDetails` | server/utils/validation.js:106-116 | selecting an option with a required nested field and no nested answer reports only `country_details` |
| `Validation.CountryUnknownNoNested` | server/utils/validation.js:69-70 | a value matching no option reports the field and never looks at nested answers |
| `Admin.VersionStep` | server/routes/admin.js:62-71 | the version moves by 0 or 1, and by 1 exactly when a field list is supplied that differs from the stored list as it reads back |
| `Admin.ReviseAttributes` | server/routes/admin.js:64-67 | each attribute is overwritten only when the request carries it; timestamps are untouched before the save |
| `Admin.MetadataUpdateKeepsVersion` | server/routes/admin.js:64-71 | an update without `fields` keeps the version and the field list |
| `Admin.ResubmitKeepsVersion` | server/routes/admin.js:62 | sending back exactly the stored list keeps the version and the fields |
| `Admin.IdlessFieldBumpsVersion` | server/routes/admin.js:62 | when the stored fields carry the `_id`s the schema gives them, a request field without an id always bumps the version |
| `Admin.ChangedFieldsBumpVersion` | server/routes/admin.js:62-71 | a supplied list that would be stored differently always bumps the version |
| `Admin.PaddedLabelBumpsVersion` | server/routes/admin.js:62 | the comparison is textual: a label with an outer blank stores identically yet bumps the version |
| `Admin.Pages` | server/routes/admin.js:116 | the page count is None (`Math.ceil` of a division by zero, sent as JSON null) exactly when the limit is 0 |
| `Admin.PagesIsCeiling` | server/routes/admin.js:116 | for a positive limit, the page count is the least number of pages holding every item |
| `Admin.PageStartsInside` | server/routes/admin.js:101 | `Admin.Skip`, the `skip = (page-1)*limit` of the handler, lies inside the list iff the page number is at most the page count |
| `Admin.WithoutForm` | server/routes/admin.js:89 | `deleteMany({formId})` keeps exactly the submissions of other forms |
| `Admin.WithoutFormCounts` | server/routes/admin.js:89 | every submission of the deleted form goes, and every other one stays as often as it was stored |
| `Admin.WithoutFormSplit` | server/routes/admin.js:89 | the deletion works piece by piece, so the kept submissions stay in store order |
| `Admin.ExportAndDeletePartition` | server/routes/admin.js:89 | the submissions the export of a form lists (admin.js:161) and those deleting the form keeps split the store, each record exactly once |
| `Admin.NewDocument` | server/routes/admin.js:38-42 | a created form defaults description to '' and fields to [], has version 1, is active, and `updatedAt` is now |
| `Admin.NewDocumentIsNormal` | server/routes/admin.js:38-44 | every field of a created form has trimmed label and name |
| `Admin.RevisedIsNormal` | server/routes/admin.js:64-73 | every field of an updated form has trimmed label and name |
| `Admin.StoreKeepsInvariants` | server/routes/admin.js:44 | storing a checked document keeps "no orphan submissions" and "every form passed the schema" |
| `Admin.UpdateKeepsInvariants` | server/routes/admin.js:52-74 | storing the updated document keeps both store invariants |
| `Admin.Store.CreateForm` | server/routes/admin.js:30-49 | a missing or empty title gives 400 and stores nothing; otherwise the defaulted document is stored under the new id (201) unless the schema refuses it (500) |
| `Admin.Store.UpdateForm` | server/routes/admin.js:52-78 | unknown id gives 404; otherwise the revised document with the version policy and `updatedAt` is stored (200), or nothing changes when the schema refuses it |
| `Admin.Store.ReviseStored` | server/routes/admin.js:61-71 | the handler's assignments, with the change test read before the fields are assigned, build exactly `Updated` |
| `Admin.Store.DeleteForm` | server/routes/admin.js:81-96 | unknown id gives 404 and changes nothing; otherwise every submission of that form goes, then the form |
| `Admin.Store.PostSubmission` | server/routes/submissions.js:34-41 | an accepted submission is appended to the store; a refusal stores nothing |
| `Export.NestedColumns` | server/routes/admin.js:176-179 | one column per nested field of an option, in order |
| `Export.Labels` | server/routes/admin.js:169-177 | the header label of each column, element by element |
| `Export.Cell` | server/routes/admin.js:197-200 | a null, undefined or '' answer is an empty cell; anything else is `String(value)` |
| `Export.AnswerCells` | server/routes/admin.js:193-202 | one cell per column, read under the field's name or `<field>_<nested>` |
| `Export.EscapeQuotes` | server/routes/admin.js:204 | quote doubling never shortens a cell |
| `Export.QuotedCells` | server/routes/admin.js:204 | every row cell is wrapped in quotes with inner quotes doubled |
| `Export.HeaderCellsQuoted` | server/routes/admin.js:207 | every header cell is wrapped in quotes without escaping |
| `Export.RowLines` | server/routes/admin.js:185-205 | one line per submission, in the order given |
| `Export.ReadQuoted` | server/routes/admin.js:204 | reading a quoted cell consumes input |
| `Export.ReadEscaped` | server/routes/admin.js:204 | an escaped cell followed by its closing quote reads back as the cell |
| `Export.RowLineRoundTrip` | server/routes/admin.js:204 | every data line reads back as exactly its cells, whatever quotes and commas they hold |
| `Export.HeaderLineWithQuote` | server/routes/admin.js:207 | the header line of the label `a"b` does not read back as that label |
| `Export.EscapedHeaderRoundTrip` | server/routes/admin.js:207 | with header cells escaped like data cells, the header line reads back |
| `Export.EscapeWithoutQuotes` | server/routes/admin.js:204-207 | for labels without quotes both quoting rules agree |
| `Export.OptionColumnsCount` | server/routes/admin.js:173-181 | an option list contributes one column per nested field |
| `Export.ColumnsCount` | server/routes/admin.js:168-183 | |fields| + (nested fields over all options) columns |
| `Export.TableShape` | server/routes/admin.js:165-202 | the header has 1 + |fields| + nested-count cells, and every row exactly as many |
| `Export.OwnColumnFirst` | server/routes/admin.js:169-170 | a field contributes exactly one top-level column |
| `Export.ColumnsFollowStoredOrder` | server/routes/admin.js:168 | the top-level columns are the stored fields in stored order, not sorted by `order` |
| `Export.PushNestedHeaders` | server/routes/admin.js:176-179 | the innermost loop appends the option's nested columns and their labels |
| `Export.PushFieldHeaders` | server/routes/admin.js:169-182 | one outer iteration appends the field's column and its options' nested columns |
| `Export.BuildHeaders` | server/routes/admin.js:165-183 | the loops build exactly the column list and the header cells |
| `Export.BuildRow` | server/routes/admin.js:185-202 | the row loop builds the submission time followed by one cell per column |
| `Export.BuildCsv` | server/routes/admin.js:185-207 | the header line and the quoted rows joined by newlines equal `Export.Csv`, the text of the reply |
| `Export.ExportReply` | server/routes/admin.js:154-211 | unknown form id gives 404; otherwise the CSV of that form's submissions |
| `Export.OfForm` | server/routes/admin.js:161 | `find({formId})` keeps exactly that form's submissions |
| `Export.OfFormCounts` | server/routes/admin.js:161 | the export has one row per stored submission of the form, duplicates included, and no other |
| `Export.OfFormSplit` | server/routes/admin.js:161 | the filter works piece by piece, so the rows follow store order |
| `PublicForms.ListActive` | server/routes/forms.js:7-8 | the list holds exactly the active forms' summaries and nothing else |
| `PublicForms.ListActiveOne` | server/routes/forms.js:7-8 | one stored form gives its summary when active and nothing otherwise |
| `PublicForms.ListActiveSplit` | server/routes/forms.js:7-8 | the listing works piece by piece: one summary per active form, in the order the store yields them |
| `PublicForms.GetForm` | server/routes/forms.js:17-36 | 404 "Form not found" iff the form is missing or inactive |
| `PublicForms.NotFoundIsUniform` | server/routes/forms.js:21-27 | a missing and an inactive form give the identical reply |
| `PublicForms.ServedFields` | server/routes/forms.js:30-34 | every other attribute is as stored; the fields are a permutation sorted by `order`, ties kept in stored order |
| `PublicForms.SortedFormServedAsStored` | server/routes/forms.js:30 | a form whose fields are already in order is served unchanged |
| `Submissions.Status` | server/routes/submissions.js:12-46 | 201 exactly for a created submission, 404 exactly for a missing or inactive form |
| `Submissions.ClientIp` | server/routes/submissions.js:38 | `req.ip`, else the forwarded header, else '' |
| `Submissions.Submit` | server/routes/submissions.js:8-50 | 400 iff formId is missing or empty or answers is missing; 404 iff the form is missing or inactive; 400 with the validator's unchanged non-empty map iff validation fails; otherwise 201 with `formVersion` = the form's version and the submitted answers |
| `Submissions.MissingInputBeforeLookup` | server/routes/submissions.js:12-16 | a request without formId or answers is refused with 400 whatever the store holds |
| `Submissions.NotFoundIsUniform` | server/routes/submissions.js:18-21 | missing and inactive forms give one reply, and the validator is never consulted |
| `SubmissionModel.NewSubmission` | server/models/Submission.js:3-32 | form id, version and answers as given; `submittedAt` is the creation time; `ip` defaults to ''; no metadata |
| `FormModel.CastField` | server/models/Form.js:3-48 | storing a field trims label and name and defaults `required` to false, `order` to 0 and options to [] |
| `FormModel.CastFields` | server/models/Form.js:61 | the field list is stored element by element |
| `FormModel.EchoFields` | server/routes/admin.js:62 | a stored list reads back element by element with every default spelled out |
| `FormModel.CastIsNormal` | server/models/Form.js:4-18 | a stored field's label and name carry no outer white space |
| `FormModel.CastEchoFields` | server/models/Form.js:3-48 | storing what a stored list reads back gives the same list |
| `FormModel.NewForm` | server/models/Form.js:50-78 | a new form has version 1, is active, has both timestamps now and trimmed title and description |
| `FormModel.PreSave` | server/models/Form.js:80-83 | every save sets `updatedAt` to now and changes nothing else |
| `FormModel.NestedFromClient` | server/models/Form.js:26-35 | a nested field keeps label, type, name, flag and choices, and drops anything nested below |
| `FormModel.OptionFromClient` | server/models/Form.js:23-36 | an option keeps label and value and one nested field per client nested field |
| `FormModel.RuleFromSlot` | server/models/Form.js:37-43 | a validation key is set iff the client sent it |
| `FormModel.FromClient` | server/models/Form.js:3-48 | a client field keeps label, name, type, flag, order, id and option values; options are present iff sent |
| `ClientTypes.ParseType` | client/src/types/index.ts:1-9 | a type string that parses is the spelling of that type |
| `ClientTypes.ParseTypeName` | client/src/types/index.ts:1-9 | every type's spelling parses back to it |
| `ClientTypes.TypeNamesExactly` | client/src/types/index.ts:1-9 | exactly the eight literal strings are field types |
| `ClientTypes.KeyCount` | client/src/types/index.ts:24-30 | `Object.keys(validation).length` is at most 5 and is 0 iff no key is set |
| `FieldOrder.SortBy` | server/utils/validation.js:95 | the sort gives a permutation in ascending `order` |
| `FieldOrder.Insert` | server/utils/validation.js:95 | one insertion step adds exactly one element |
| `FieldOrder.InsertKeepsSorted` | server/utils/validation.js:95 | an insertion step keeps the list sorted |
| `FieldOrder.InsertWithKey` | server/utils/validation.js:95 | an insertion step keeps the order among equal keys |
| `FieldOrder.SortIsStable` | server/utils/validation.js:95 | fields of equal `order` keep their relative order |
| `FieldOrder.SortOfSorted` | server/routes/forms.js:30 | a list already in order comes back unchanged |
| `FieldOrder.SortIdempotent` | client/src/components/FormRenderer.tsx:126 | sorting twice is sorting once |
| `Editor.MaxOrder` | client/src/components/AdminPanel.tsx:85-87 | the largest `order`, attained by some field, or -1 for an empty list |
| `Editor.FindIndex` | client/src/components/AdminPanel.tsx:80 | the first index holding the id, or -1 iff none does |
| `Editor.AddField` | client/src/components/AdminPanel.tsx:75-94 | editing replaces only the first field with the edited id, keeping its id and order, and changes nothing if none has it; adding appends with order = max + 1 (0 for an empty list) and grows the list by 1 |
| `Editor.DeleteField` | client/src/components/AdminPanel.tsx:96-100 | exactly the fields with that id go |
| `Editor.DeleteKeepsOrder` | client/src/components/AdminPanel.tsx:98 | deletion works piecewise, so the survivors keep their relative order |
| `Editor.DeleteAbsent` | client/src/components/AdminPanel.tsx:98 | a list without the id is left unchanged |
| `Editor.Moved` | client/src/components/AdminPanel.tsx:110-111 | the two splices keep the length |
| `Editor.RemoveAt` | client/src/components/AdminPanel.tsx:110 | taking one element out shortens the list by 1 |
| `Editor.MovedSpec` | client/src/components/AdminPanel.tsx:110-111 | the moved element lands at `endIndex`, the result is a permutation, and the others keep their relative order |
| `Editor.Renumbered` | client/src/components/AdminPanel.tsx:114-116 | each field's order becomes its index, nothing else changes |
| `Editor.ReorderFields` | client/src/components/AdminPanel.tsx:107-119 | the splice and renumber loop build exactly the moved and renumbered list |
| `Editor.ReorderSpec` | client/src/components/AdminPanel.tsx:107-117 | orders become exactly 0..n-1, the element at `startIndex` lands at `endIndex`, and the list is a permutation |
| `Editor.ReorderMovesWrongField` | client/src/components/AdminPanel.tsx:107-119 | with indices taken from the sorted view, dragging one field moves another |
| `Editor.ReorderShownMovesDragged` | client/src/components/AdminPanel.tsx:257-268 | applied to the sorted view, the dragged field lands at `endIndex`, as a permutation, with orders 0..n-1 |
| `Editor.SkipRun` | client/src/components/AdminPanel.tsx:450 | a run outside [a-z0-9] is dropped from the front |
| `Editor.CollapseRuns` | client/src/components/AdminPanel.tsx:450 | after the replace the text holds only [a-z0-9-] and never "--" |
| `Editor.SlugShape` | client/src/components/AdminPanel.tsx:447-452 | `Editor.Slug`, the name derived from a label, holds only [a-z0-9-], has no "--", and neither starts nor ends with '-' |
| `Editor.CollapseOfSlug` | client/src/components/AdminPanel.tsx:450 | slug text without doubled dashes is unchanged by the replace |
| `Editor.SlugIdempotent` | client/src/components/AdminPanel.tsx:447-452 | the slug of a slug is itself |
| `Editor.SlugEffect` | client/src/components/AdminPanel.tsx:447-452 | a name is derived iff the name is empty and the label is not |
| `Editor.SubmitField` | client/src/components/AdminPanel.tsx:454-476 | a blank trimmed label or name submits nothing; otherwise label and name are trimmed, and options and validation are attached iff non-empty |
| `Editor.SubmittedIsTrimmed` | client/src/components/AdminPanel.tsx:456-461 | a submitted label and name are non-empty and trimming them again changes nothing |
| `Editor.AddOption` | client/src/components/AdminPanel.tsx:487-489 | one blank option is appended, the rest unchanged |
| `Editor.MergeOption` | client/src/components/AdminPanel.tsx:493 | `{...option, ...updates}`: each key the update carries wins, the others stay |
| `Editor.UpdateOption` | client/src/components/AdminPanel.tsx:491-495 | only the option at the index changes, merged with the update |
| `Editor.EmptyUpdateKeepsOptions` | client/src/components/AdminPanel.tsx:491-495 | an update carrying no key leaves the list unchanged |
| `Editor.DeleteOptionSpec` | client/src/components/AdminPanel.tsx:497-499 | `Editor.DeleteOption`, the `filter` by index, removes exactly the option at the index; an index outside the list removes nothing |
| `Editor.AddNestedField` | client/src/components/AdminPanel.tsx:710-718 | one nested field is appended with order = old length; the earlier ones are unchanged |
| `Editor.AddNestedKeepsIndexOrder` | client/src/components/AdminPanel.tsx:710-718 | adding keeps each nested field's order equal to its index |
| `Editor.FormatAnswer` | client/src/components/AdminPanel.tsx:828-833 | null or undefined shows '-', arrays are joined with ", ", objects are JSON, anything else is `String(v)` |
| `Editor.FormatStrings` | client/src/components/AdminPanel.tsx:828-833 | a string shows as itself, and '' is not shown as '-' |
| `Editor.FormatTwoChoices` | client/src/components/AdminPanel.tsx:830 | two choices show as "a, b", with no escaping of commas |
| `Renderer.HandleChange` | client/src/components/FormRenderer.tsx:38-46 | sets the answer, keeps every other key, and removes only that field's error entry |
| `Renderer.HandleNestedChange` | client/src/components/FormRenderer.tsx:48-57 | writes under `<parent>_<nested>` and clears only that key's errors |
| `Renderer.Merged` | client/src/components/FormRenderer.tsx:69 | the submitted map holds every key of both maps, and the nested value wins a collision |
| `Renderer.NestedWinsOnCollision` | client/src/components/FormRenderer.tsx:69 | a nested answer written after a top-level one under the same key is the one submitted |
| `Renderer.NestedErrors` | client/src/components/FormRenderer.tsx:152-157 | exactly the error entries whose key starts with `<name>_`, unchanged |
| `Renderer.NestedErrorReachesParent` | client/src/components/FormRenderer.tsx:152-157 | a nested field's errors always reach its parent |
| `Renderer.PrefixAlsoMatchesSiblings` | client/src/components/FormRenderer.tsx:153 | the filter is by prefix: field `a` also receives the errors of a field named `a_b` |
| `Renderer.FindOption` | client/src/components/FormRenderer.tsx:365 | None iff no option value strictly equals the answer; otherwise the first that does |
| `Renderer.SelectedOption` | client/src/components/FormRenderer.tsx:364-366 | non-null only for radio/select with a truthy value, and then the first option whose value strictly equals it |
| `Renderer.OnlyStringsSelect` | client/src/components/FormRenderer.tsx:364-366 | a non-string answer never selects an option |
| `Renderer.Toggle` | client/src/components/FormRenderer.tsx:294-305 | ticking appends the option value; unticking removes every copy of it and keeps every other value as often as it occurs |
| `Renderer.Without` | client/src/components/FormRenderer.tsx:305 | a value survives the filter iff it was there and is not the removed value |
| `Renderer.WithoutCounts` | client/src/components/FormRenderer.tsx:305 | the filter removes every copy of the value and keeps every other value as often as it occurs |
| `Renderer.WithoutSplit` | client/src/components/FormRenderer.tsx:305 | filtering works piece by piece, so the kept values stay in their order |
| `Renderer.WithoutAbsent` | client/src/components/FormRenderer.tsx:305 | filtering out an absent value changes nothing |
| `Renderer.WithoutAppended` | client/src/components/FormRenderer.tsx:305 | filtering out a value just appended is filtering the list before it |
| `Renderer.UntickUndoesTick` | client/src/components/FormRenderer.tsx:303-305 | unticking an option just ticked restores the previous selection, when that selection did not hold the option |
| `Renderer.ShownInOrder` | client/src/components/FormRenderer.tsx:126 | `Renderer.ShownFields`, the list the page renders, is a permutation of the stored fields in ascending `order`, ties in stored order |
| `Sanitizer.FindClose` | server/middleware/sanitize.js:9 | the first `</script>` at or after a position, in any letter case, or None iff there is none |
| `Sanitizer.ScriptAt` | server/middleware/sanitize.js:9 | a match of the script pattern starts with `<script` and ends with `</script>` |
| `Sanitizer.WordRun` | server/middleware/sanitize.js:11 | the maximal run of `\w` characters |
| `Sanitizer.SpaceRun` | server/middleware/sanitize.js:11 | the maximal run of `\s` characters |
| `Sanitizer.HandlerAt` | server/middleware/sanitize.js:11 | a handler match starts with "on" and a word character and ends with '=' |
| `Sanitizer.RemoveScripts` | server/middleware/sanitize.js:9 | script removal never lengthens the string |
| `Sanitizer.RemoveScheme` | server/middleware/sanitize.js:10 | "javascript:" removal never lengthens the string |
| `Sanitizer.RemoveHandlers` | server/middleware/sanitize.js:11 | handler removal never lengthens the string |
| `Sanitizer.RemoveAngles` | server/middleware/sanitize.js:12 | the result holds no '<' or '>' and is never longer |
| `Sanitizer.ScriptsKeptIffAbsent` | server/middleware/sanitize.js:9 | script removal changes a string iff a script block starts somewhere in it |
| `Sanitizer.SchemeKeptIffAbsent` | server/middleware/sanitize.js:10 | scheme removal changes a string iff "javascript:" occurs in it in any letter case |
| `Sanitizer.HandlersKeptIffAbsent` | server/middleware/sanitize.js:11 | handler removal changes a string iff a handler prefix starts somewhere in it |
| `Sanitizer.AnglesKeptIffAbsent` | server/middleware/sanitize.js:12 | angle removal changes a string iff it holds '<' or '>' |
| `Sanitizer.RunStep` | server/middleware/sanitize.js:7-12 | no link of the chain lengthens the string; the last link leaves no angle bracket |
| `Sanitizer.RunSteps` | server/middleware/sanitize.js:7-12 | a chain never lengthens the string, and one ending with the angle link leaves no angle bracket |
| `Sanitizer.SanitizeString` | server/middleware/sanitize.js:6-13 | a sanitised string is never longer than the input and holds no '<' or '>' |
| `Sanitizer.ChainIsNested` | server/middleware/sanitize.js:7-12 | the chain is trim, then scripts, scheme, handlers, angles, in that order |
| `Sanitizer.Put` | server/middleware/sanitize.js:24 | an assignment adds at most one entry, only the assigned pair is new, and keys stay distinct |
| `Sanitizer.Assign` | server/middleware/sanitize.js:21-26 | the fresh object holds only assigned pairs, at most one per assignment, with distinct keys |
| `Sanitizer.GetAssign` | server/middleware/sanitize.js:21-26 | a key is held iff some assignment wrote it, with the value of the last such assignment |
| `Sanitizer.Sanitize` | server/middleware/sanitize.js:1-31 | strings stay strings and never grow; arrays keep their length; an object that passes the plain-object test gets distinct keys and never grows, and one that fails it comes back unchanged; numbers and booleans are unchanged |
| `Sanitizer.SanitizedPairs` | server/middleware/sanitize.js:23-24 | the loop assigns each entry's sanitised key and sanitised value, in order |
| `Sanitizer.SanitizeInput` | server/middleware/sanitize.js:1-31 | null and undefined come back unchanged; with the source's `obj.constructor === Object` test, angle brackets survive only inside objects holding an own "constructor" key, and an input without such an object comes back free of them |
| `Sanitizer.SanitizedIsAngleFree` | server/middleware/sanitize.js:6-28 | when every object passes the plain-object test, no string anywhere in the sanitised value, object keys included, holds '<' or '>' |
| `Sanitizer.SanitizedSkipsOnlyConstructorObjects` | server/middleware/sanitize.js:19-30 | for any input, angle brackets survive only inside objects that failed the plain-object test |
| `Sanitizer.ConstructorKeyKeepsAngles` | server/middleware/sanitize.js:19 | `{"constructor": 1, "note": "<b>"}` fails `obj.constructor === Object` and comes back as it is, `<b>` included |
| `Sanitizer.PrototypeTestIsAngleFree` | server/middleware/sanitize.js:19 | with a prototype test that every parsed object passes, no sanitised value holds an angle bracket |
| `Sanitizer.TestsAgree` | server/middleware/sanitize.js:19 | the source's test and the prototype test give the same result on every input without a "constructor" key |
| `Sanitizer.ArrayCase` | server/middleware/sanitize.js:15-17 | each array element is sanitised in place |
| `Sanitizer.ObjectCase` | server/middleware/sanitize.js:19-30 | an object failing the plain-object test comes back unchanged; otherwise a key is held iff some input key sanitises to it, with the sanitised value of the last such entry |
| `Sanitizer.CollidingKeys` | server/middleware/sanitize.js:19-24 | two keys that sanitise alike leave one entry holding the later value, unless the pair fails the plain-object test and is returned as it is |
| `Sanitizer.BracketedKeyCollides` | server/middleware/sanitize.js:23 | `<k>` and `k` sanitise to the same key |
| `Sanitizer.SanitizeObject` | server/middleware/sanitize.js:19-30 | the `constructor` test and the `for...in` loop build exactly the sanitised object |
| `Sanitizer.SanitizeRequestPart` | server/middleware/sanitize.js:33-45 | a truthy body or query is sanitised; a missing or falsy one is left as it is |
| `Sanitizer.GuardChangesNothing` | server/middleware/sanitize.js:34 | the truthiness guard makes no difference, since every falsy value is its own sanitised form |

## Left out

- Mongo query mechanics (`find`, `sort`, `skip`, `limit`, `populate`, `countDocuments`, `save`, ids) are
  replaced by a map from id to form and a sequence of submissions. The listings' `createdAt` /
  `submittedAt` sort orders are not modelled: the lists keep store order, since the order comes from the
  database.
- `JSON.stringify(form.fields) !== JSON.stringify(fields)` is modelled as structural inequality between the
  request list and `EchoFields` of the stored list. Key order and the serialisation of numbers are not
  modelled.
- Floating point: answer values and validation bounds are `real`. `Number`, `isNaN`, Infinity, number
  formatting, `Date` parsing, `RegExp` compilation and `test`, `JSON.stringify` and `toISOString` are
  opaque `Js.Runtime` services.
- `FormModel.CastField`: a field's `order` is an `int`, although the schema (server/models/Form.js:44-47)
  stores any Number; a fractional order is not represented, and neither are a form's `version` or the
  timestamps as anything but integers.
- `FieldOrder.SortBy`, `Editor.MaxOrder`: the sort key and the largest order are integers, for the same
  reason; ordering by fractional keys is not captured.
- `Admin.Skip`, `Admin.Pages`: `page` and `limit` are integers. The query strings arrive as text that `-`,
  `*` and `/` coerce with `Number` while the response uses `parseInt` (server/routes/admin.js:100-116), so
  a query such as `limit=1.5` or `page=abc` and its NaN arithmetic are not represented.
- `Js.Lookup`: reads own properties only. That is the corrected behaviour of the validator's read; the
  inherited read is `Js.PropertyRead`, and its consequence for required fields is the third finding below.
- `Export.Cell`, `Export.AnswerCells`: a column whose name is an `Object.prototype` member (`constructor`,
  `toString`, ...) and that has no own answer would print that member's source text in the export; the
  model reads own answers only.
- `Validation.ValidateSubmission`: an error written under the key `__proto__` replaces the error object's
  prototype instead of adding a key, so the JSON reply would show no error for it while `isValid` is
  false; the model's error map holds the key.
- `FormModel.CastField`, `Admin.VersionStep`: the schema gives every stored field, option, nested field
  and nested choice that arrives without an `_id` a fresh one (server/models/Form.js:48 and the
  subdocument arrays at lines 23-36), and the read-back compared at server/routes/admin.js:62 carries
  them. The model keeps a missing field id as None and gives options, nested fields and choices no id.
  So a request that deletes an option and re-adds an identical one without an id bumps the version in
  the source but not in the model. For fields, `Admin.IdlessFieldBumpsVersion` states the source's
  behaviour for stored fields that carry ids.
- `FormModel.NestedField`, `FormModel.FieldOption`, `FormModel.Choice`: the schema declares the option
  `label` and `value`, the nested field's `label`, `type`, `name` and `required`, and a choice's `label` and
  `value` as optional (server/models/Form.js:23-35), so a request can store them missing. The model makes
  them present strings and booleans. It therefore does not capture the answer key `<parent>_undefined`
  the validator reads and writes for a nested field without a name (server/utils/validation.js:110-113),
  the message "undefined is required" for one without a label, or the export header `<label> - undefined`.
- `Submissions.Submit`: two inputs make the route reply 500 where the model replies Created or NotFound.
  Mongoose `Map` paths (server/models/Submission.js:14-18) refuse a key that contains '.' or starts with
  '$', so answers with such a key beside valid ones (`{"a.b": 1}`) make `save` at
  server/routes/submissions.js:41 throw. A `formId` that is not an ObjectId makes `findById` at line 18
  throw. The model accepts the first and replies NotFound for the second; neither is a storage failure
  the model could leave to the database.
- Case folding for `/i` and `toLowerCase` is ASCII only. That is exact for the sanitiser's patterns, but
  `toLowerCase` in the slug also lowers non-ASCII letters, and those are kept as they are here.
- `Editor.ReorderFields`: the source mutates the `order` of field objects it shares with the previous
  state; the model copies, so that aliasing is not captured.
- `Editor.ReorderFields` and `Editor.UpdateOption` require their indices to lie inside the list. The
  indices come from the rendered list, and `splice` / index assignment with an index outside it are not
  modelled.
- `Submissions.Submit`: an `answers` value that is truthy but not an object is not modelled; answers are
  an answer map or missing.
- `Sanitizer.Sanitize`: objects are JSON objects. The own "constructor" key that makes one fail the
  plain-object test is modelled (the fourth finding below). An own `__proto__` key (whose assignment to the
  fresh object sets its prototype instead of adding a key), an own `hasOwnProperty` key (the call at
  line 22 then throws) and the ordering of integer-like keys before other keys are not modelled.
- The `<script>` and handler regexes are modelled as the concrete left-to-right, non-overlapping single
  pass `replace` performs. Because it is a single pass, a removal can join two halves into a new match
  that stays in the output. The model has that behaviour, but no lemma states it.
- `handleUpdateNestedField` and `handleDeleteNestedField` have the same shape as the option handlers
  (`Editor.UpdateOption`, `Editor.DeleteOptionSpec`). They are not modelled separately.
- The GET handlers of admin.js that only read one form or all forms, error replies with status 500
  (exceptions), HTTP and authentication (server/middleware/auth.js), server/index.js,
  client/src/api/config.ts, client/src/App.tsx and client/src/components/FormList.tsx are not part of this
  model.
- JSX rendering, modals, drag events, `window.confirm`, timers, navigation and the Blob download are
  left out.

## Findings

| source | as written | input that shows it | evidently intended | confidence | as-written member | corrected member |
|---|---|---|---|---|---|---|
| server/routes/admin.js:207 | header labels are wrapped in quotes without doubling inner quotes | a field labelled `a"b` gives the header cell `"a"b"`, which reads back as `a` followed by stray text | header cells escaped like data cells, so every label reads back | high, not executed | `Export.HeaderLineWithQuote` | `Export.EscapedHeaderRoundTrip` |
| client/src/components/AdminPanel.tsx:107-119 | drag indices from the list sorted by `order` (lines 257, 267) are applied to the stored list | stored [A (order 1), B (order 0)] is shown as [B, A]; dragging B onto position 1 moves A, and the result shows [B, A] again | the move applied to the list as shown, so the dragged field lands where it was dropped | high, not executed | `Editor.ReorderMovesWrongField` | `Editor.ReorderShownMovesDragged` |
| server/utils/validation.js:98 | `answers[field.name]` also reads members inherited from `Object.prototype` | a required text field labelled `Constructor` (so named `constructor`) and the answers `{}`: the read yields the `Object` function, which is not blank, so no "Constructor is required" error is given | a required field without an own answer is reported missing | high, not executed | `Validation.InheritedNameNeverMissing` | `Validation.MissingRequiredReported` |
| server/middleware/sanitize.js:19 | an object is sanitised only when `obj.constructor === Object`, which a parsed object with an own "constructor" key fails | the body `{"formId": "…", "answers": {"constructor": 1, "note": "<script>x</script>"}}`: the inner object reaches the validator and the store with its angle brackets | every parsed JSON object is sanitised, so no string or key of the result holds '<' or '>' | high, not executed | `Sanitizer.ConstructorKeyKeepsAngles` | `Sanitizer.PrototypeTestIsAngleFree` |
