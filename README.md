# Employee directory: a verified model of its core

This project models the logic of a small employee-directory application. It has an HTTP server
with five CRUD handlers over an Employee table, and a React client with these parts:

- a search filter and an email-syntax helper;
- a schema-based form validator;
- two data hooks;
- the add/edit form page;
- the table's delete-confirmation flow;
- the list page that ties the filter, the counters and the delete path together.

Each module corresponds to one source file:

| module | file | what it holds |
|---|---|---|
| `Wrappers` | `wrappers.dfy` | `Option`, `Result` and `Outcome` (success, or a failure with its message) |
| `Text` | `text.dfy` | the JavaScript string built-ins the code uses, listed below |
| `Seqs` | `seqs.dfy` | `Array.prototype.filter` as an order-preserving `Select`, `map`, and their lemmas |
| `Records` | `records.dfy` | the employee object as the client holds it; every key may be missing |
| `Helpers` | `helpers.dfy` | `filterEmployees` and `isValidEmail` |
| `Validation` | `validation.dfy` | the per-field schema as a table of checks, `validateField`, and `validateEmployeeForm` with its `forEach` loop |
| `EmployeeController` | `controller.dfy` | the five request handlers over an id-to-row map with an auto-increment id |
| `Envelope` | `envelope.dfy` | the JSON envelopes the server writes, and how the client hooks read them |
| `UseEmployees` | `hooks.dfy` | `useEmployees` (list normalisation, fetch, local removal after delete) and `useEmployee` (record normalisation) |
| `EmployeeFormPage` | `form_page.dfy` | `formData`, `errors`, `touched` and `isSubmitting`, and the handlers that update them |
| `EmployeeTable` | `table.dfy` | the delete-confirmation state: `deletingId`, `showDeleteModal` and `selectedEmployee` |
| `EmployeeListPage` | `list_page.dfy` | view selection, the displayed list, the counters, the search term and the delete path |

The `Text` module covers these built-ins:
- `trim`, the `\s` class, and `toLowerCase` on ASCII;
- `includes`;
- `replace(/\D/g, '')`;
- `Number` on decimal strings.

Stateful code is modelled with classes whose methods update fields in place. This covers the server's table, the hooks' state, the form page, the table's confirmation state and the list page's search term. Each handler is one atomic step.

Anything outside the code is a parameter: a network request, a store call, or the form library's email test.
- A client request receives its outcome: a response body, or a failure and its message.
- Every server store call receives `storeFails` and the message the store would report.
- The validation schema receives the email-syntax test `emailSyntax`.

The optional fields are nullable but not optional when empty. The schema trims `phone` and `department`, then applies `matches(/^\d{10}$/)` and `min(2)`. Those tests skip only null and undefined, so '' is rejected. The initial form holds '' in both fields, and `EmployeeFormPage.EmptyOptionalFieldBlocksSubmit` proves the consequence: a form that leaves either of them empty is never accepted.

## Model

| member | source | states |
|---|---|---|
| Text.Trim | client/src/utils/helpers.js:10 | the result is an infix `s[i..j]` of the input with only whitespace before `i` and after `j`; it is empty exactly when the input is all whitespace, and otherwise starts and ends with a non-whitespace character |
| Text.Lower | client/src/utils/helpers.js:14 | lower-casing keeps the length, leaves no ASCII upper-case letter, turns each one into its lower-case partner, and keeps every other character in place |
| Text.LowerIdempotent | client/src/utils/helpers.js:14 | lower-casing twice is lower-casing once |
| Text.ContainsIffOccurs | client/src/utils/helpers.js:23-26 | `includes` holds exactly when the needle occurs at some offset of the haystack |
| Text.KeepDigitsFixesDigits | client/src/pages/EmployeeFormPage.jsx:49 | stripping non-digits leaves an all-digit string unchanged and is idempotent |
| Text.NumberOf | server/src/controllers/employeeController.js:65 | `Number` on a route parameter: '' or whitespace reads as 0, a decimal numeral as its value, anything else as NaN; its contract is stated by `Text.NumberOfDecimal` |
| Text.NumberOfDecimal | server/src/controllers/employeeController.js:65 | `Number` applied to the decimal form of a non-negative id gives that id back |
| Helpers.FilterEmployees | client/src/utils/helpers.js:9-29 | `filterEmployees`; its contract is stated by `Helpers.FilterBlankIsIdentity`, `Helpers.FilterIsSubsequence`, `Helpers.FilterSound`, `Helpers.FilterComplete` and `Helpers.FilterCount` |
| Helpers.FilterBlankIsIdentity | client/src/utils/helpers.js:10-12 | an empty or whitespace-only term returns the list unchanged |
| Helpers.FilterIsSubsequence | client/src/utils/helpers.js:16-28 | the result is a subsequence of the input (order kept, nothing added) and no longer than it |
| Helpers.FilterSound | client/src/utils/helpers.js:17-27 | for a non-blank term every kept employee is from the input and has a searchable field containing the lower-cased term |
| Helpers.FilterComplete | client/src/utils/helpers.js:16-28 | every input employee with a matching field is kept |
| Helpers.FilterCount | client/src/utils/helpers.js:16-28 | each employee occurs in the result as often as in the input if it matches (or the term is blank), otherwise never |
| Helpers.MissingFieldNeverMatches | client/src/utils/helpers.js:17-20 | a missing field reads as '' and cannot match a non-blank term |
| Helpers.NoSearchableFieldsNeverKept | client/src/utils/helpers.js:17-27 | an employee with none of name, email, position or department is dropped by every non-blank term |
| Helpers.MatchingUsesUntrimmedTerm | client/src/utils/helpers.js:10-14 | only the blank test trims: "bob" finds an employee named "Bob" and " bob" does not |
| Helpers.IsValidEmail | client/src/utils/helpers.js:40-43 | `isValidEmail`; its contract is stated by `Helpers.IsValidEmailIffShape` and `Helpers.ValidEmailHasOneAtAndNoWhitespace` |
| Helpers.IsValidEmailIffShape | client/src/utils/helpers.js:40-43 | the email test holds exactly when the string is L@D.T, where L, D and T are non-empty runs without whitespace or '@' and D may contain dots |
| Helpers.ValidEmailHasOneAtAndNoWhitespace | client/src/utils/helpers.js:41-42 | a valid address holds exactly one '@' and no whitespace |
| Validation.Schema | client/src/utils/validation.js:3-33 | the schema's checks per field, with the source's messages, in declaration order; what each field accepts is stated by `Validation.NameRule`, `Validation.EmailRule`, `Validation.PositionRule`, `Validation.PhoneRule` and `Validation.DepartmentRule` |
| Validation.FirstFailure | client/src/utils/validation.js:50-53 | None exactly when every check passes; otherwise the message of a check that fails |
| Validation.ValidateField | client/src/utils/validation.js:48-55 | null exactly when the field accepts the trimmed value; otherwise the message of one of that field's failing rules; no other field is read |
| Validation.NameRule | client/src/utils/validation.js:4-9 | name is accepted exactly when present, 2 to 50 characters after trimming, and made only of ASCII letters and whitespace |
| Validation.EmailRule | client/src/utils/validation.js:11-15 | email is accepted exactly when present, non-empty after trimming, of email syntax, and at most 100 characters |
| Validation.PositionRule | client/src/utils/validation.js:17-21 | position is accepted exactly when present and 2 to 50 characters after trimming |
| Validation.PhoneRule | client/src/utils/validation.js:23-26 | phone accepts null; a string is accepted exactly when it is ten ASCII digits after trimming |
| Validation.DepartmentRule | client/src/utils/validation.js:28-32 | department accepts null; a string is accepted exactly when it is 2 to 50 characters after trimming |
| Validation.FailedChecks | client/src/utils/validation.js:37 | the failed checks of one field, each tagged with its path; empty exactly when all of them pass |
| Validation.Violations | client/src/utils/validation.js:37 | every collected violation names a listed field and a check of that field that its trimmed value fails |
| Validation.ViolationsCover | client/src/utils/validation.js:37 | with `abortEarly: false` every failing field yields at least one violation |
| Validation.InnerErrorPaths | client/src/utils/validation.js:37-43 | a field is the path of an inner error exactly when `validateField` reports it |
| Validation.InnerErrorReports | client/src/utils/validation.js:37-43 | every inner error carries the message of a check its field fails |
| Validation.InnerErrors | client/src/utils/validation.js:37-39 | the inner errors' paths are exactly the failing fields, and each message is one of its field's failures |
| Validation.CollectErrors | client/src/utils/validation.js:40-43 | the `forEach` gives every path an entry and no other key; each entry is a message of that path; a path's last message wins |
| Validation.ValidateEmployeeForm | client/src/utils/validation.js:35-46 | valid exactly when errors is empty, and exactly when every field passes; an error key exactly for each failing field, holding one of its failure messages |
| EmployeeController.Merge | server/src/controllers/employeeController.js:103-106 | the row after an update; its contract is stated by `EmployeeController.MergeWritesSuppliedFields` and `EmployeeController.MergeIdempotent` |
| EmployeeController.MergeWritesSuppliedFields | server/src/controllers/employeeController.js:103-106 | an update writes every supplied value ('' included), keeps undefined columns, and keeps the id |
| EmployeeController.MergeIdempotent | server/src/controllers/employeeController.js:103-106 | sending the same update twice leaves the row as sending it once |
| EmployeeController.Controller.CreateEmployee | server/src/controllers/employeeController.js:4-31 | 400 with the table unchanged when any field is falsy; 500 with the store's message and the table unchanged on a store failure; otherwise 200 with a row under a never-used id holding the five values, and the table gains exactly that row |
| EmployeeController.Controller.GetAllEmployees | server/src/controllers/employeeController.js:34-50 | 500 with the store's message on failure; otherwise 200 with a listing of every row exactly once; the table is unchanged |
| EmployeeController.Controller.GetEmployeeById | server/src/controllers/employeeController.js:53-88 | 400 for an empty id; 500 on a store failure or an id `Number` cannot read; 404 when no row has that id; otherwise 200 with that row |
| EmployeeController.Controller.UpdateEmployee | server/src/controllers/employeeController.js:91-121 | 400 with the table unchanged when no field is truthy; 404 with the table unchanged on any store failure or unknown id; otherwise 200 with the merged row, and only that row changes |
| EmployeeController.Controller.DeleteEmployee | server/src/controllers/employeeController.js:124-145 | 404 with the table unchanged on any store failure or unknown id; otherwise 200 with the removed row's prior value, and that id is gone |
| EmployeeController.CreateThenRead | server/src/controllers/employeeController.js:4-88 | a complete body is created under a never-used id, then appears in the listing and is fetched back by its id |
| EmployeeController.DeleteIsFinal | server/src/controllers/employeeController.js:53-145 | after deleting a row, reading it and deleting it again both answer 404, and the table has lost exactly that row |
| Envelope.ToEmployee | server/src/controllers/employeeController.js:18-22 | a row reaches the client with its id as `id` and no `_id` |
| Envelope.ListingReachesClient | client/src/hooks/useEmployees.js:14-17 | the list the client keeps is the server's listing, entry for entry |
| Envelope.RecordReachesClient | client/src/hooks/useEmployees.js:70 | the edit form receives the row itself, not the envelope around it |
| Envelope.WithoutLists | server/src/controllers/employeeController.js:128-130 | dropping row k from a listing of the table lists the table without k |
| Envelope.LocalRemovalMatchesServer | client/src/hooks/useEmployees.js:36 | after a successful delete, the client's local removal gives exactly the listing the server would now send |
| UseEmployees.NormaliseList | client/src/hooks/useEmployees.js:14-20 | the list `fetchEmployees` keeps; its contract is stated by `UseEmployees.RawArrayFirst`, `UseEmployees.EmployeesKeyBeforeData`, `UseEmployees.DataKeyLast` and `UseEmployees.NoArrayGivesEmpty` |
| UseEmployees.RawArrayFirst | client/src/hooks/useEmployees.js:14-15 | a body that is an array is kept as it is |
| UseEmployees.EmployeesKeyBeforeData | client/src/hooks/useEmployees.js:16-17 | an `employees` array wins over whatever `data` holds |
| UseEmployees.DataKeyLast | client/src/hooks/useEmployees.js:18-19 | `data` is used only when `employees` is not an array |
| UseEmployees.NoArrayGivesEmpty | client/src/hooks/useEmployees.js:20 | with no array in any of the three places the list is empty |
| UseEmployees.NormaliseRecord | client/src/hooks/useEmployees.js:70 | the result is the value itself or one of its `employee`/`data` members; a missing value stays missing |
| UseEmployees.NormaliseRecordPriority | client/src/hooks/useEmployees.js:70 | `employee` when present, else `data` when present, else the value itself |
| UseEmployees.RemoveById | client/src/hooks/useEmployees.js:36 | every kept entry is from the list, and neither its `id` nor its `_id` equals the id |
| UseEmployees.RemoveByIdExact | client/src/hooks/useEmployees.js:36 | removal drops every copy of an entry carrying the id, keeps every copy of any other, and keeps their order |
| UseEmployees.RemoveAbsentIdIsIdentity | client/src/hooks/useEmployees.js:36 | removing an id no entry carries leaves the list unchanged |
| UseEmployees.EmployeesHook.constructor | client/src/hooks/useEmployees.js:5-7 | the list starts empty and loading, with no error |
| UseEmployees.EmployeesHook.FetchEmployees | client/src/hooks/useEmployees.js:9-27 | on success the list is the normalised body and the error is cleared; on failure the list is kept and the error is the message; loading ends false either way |
| UseEmployees.EmployeesHook.DeleteEmployee | client/src/hooks/useEmployees.js:33-41 | on success the list loses exactly the entries carrying the id and the result is `{success: true}`; on failure the list is unchanged and the result carries the message |
| UseEmployees.EmployeeHook.constructor | client/src/hooks/useEmployees.js:53-55 | no record yet, loading, no error |
| UseEmployees.EmployeeHook.Load | client/src/hooks/useEmployees.js:57-80 | a request is sent exactly when the id is truthy; a falsy id changes nothing but loading; success stores the normalised record and clears the error; failure keeps the record and stores the message; loading ends false |
| EmployeeFormPage.Sanitize | client/src/pages/EmployeeFormPage.jsx:49 | a phone value becomes all digits and no longer; any other field's value is kept verbatim |
| EmployeeFormPage.SanitizedPhoneIsItsDigits | client/src/pages/EmployeeFormPage.jsx:49 | a sanitised phone is the input's digits, in order and with their counts, and sanitising it again changes nothing |
| EmployeeFormPage.FormOf | client/src/pages/EmployeeFormPage.jsx:36-42 | the form object holds all five keys with the given values |
| EmployeeFormPage.EmptyForm | client/src/pages/EmployeeFormPage.jsx:21-27 | the initial form holds all five keys, each '' |
| EmployeeFormPage.Populated | client/src/pages/EmployeeFormPage.jsx:37-41 | `x \|\| ''`: a truthy value is copied, a falsy one becomes '' |
| EmployeeFormPage.EmptyOptionalFieldBlocksSubmit | client/src/utils/validation.js:23-32 | a form whose phone or department is '' is never accepted |
| EmployeeFormPage.ReportsTakenEmail | client/src/pages/EmployeeFormPage.jsx:112 | the message includes both "email" and "exists"; its effect is stated by `EmployeeFormPage.FormController.SendSubmission` and `EmployeeFormPage.FormController.HandleSubmit` |
| EmployeeFormPage.RecheckKeepsMatch | client/src/pages/EmployeeFormPage.jsx:56-62 | re-validating a changed field keeps every touched field's error in step with its value |
| EmployeeFormPage.UntouchedChangeKeepsMatch | client/src/pages/EmployeeFormPage.jsx:50-62 | changing an untouched field without re-validating keeps the touched fields' errors in step |
| EmployeeFormPage.BlurKeepsMatch | client/src/pages/EmployeeFormPage.jsx:65-78 | touching a field and validating its value keeps the errors in step |
| EmployeeFormPage.AcceptedKeepsMatch | client/src/pages/EmployeeFormPage.jsx:84-97 | when every field passes, marking more fields touched keeps the errors in step |
| EmployeeFormPage.ReportedErrorsAreCurrent | client/src/pages/EmployeeFormPage.jsx:91-97 | the errors a failed submission stores are in step with the values for every touched field |
| EmployeeFormPage.AcceptsAllFields | client/src/utils/validation.js:48-55 | an accepted form draws no error from `validateField` on any field |
| EmployeeFormPage.CheckForm | client/src/pages/EmployeeFormPage.jsx:91-94 | accepted exactly when every field passes; the errors shown have an entry exactly for each failing field, with one of its failure messages |
| EmployeeFormPage.FormController.constructor | client/src/pages/EmployeeFormPage.jsx:21-31 | empty form, no errors, nothing touched, nothing submitting |
| EmployeeFormPage.FormController.Populate | client/src/pages/EmployeeFormPage.jsx:34-44 | a fetched employee's five fields replace the form (falsy ones as ''); nothing changes without one; errors and touched are kept |
| EmployeeFormPage.FormController.HandleChange | client/src/pages/EmployeeFormPage.jsx:46-63 | only field f changes, to the sanitised value; its error is recomputed exactly when it is touched; touched is kept; errors in step before stay in step |
| EmployeeFormPage.FormController.HandleBlur | client/src/pages/EmployeeFormPage.jsx:65-78 | f becomes touched and only f's error is set to its validation result; the form is kept; errors in step stay in step |
| EmployeeFormPage.FormController.AllTouched | client/src/pages/EmployeeFormPage.jsx:84-87 | the `reduce` yields a key for each form key, each true |
| EmployeeFormPage.FormController.TouchAll | client/src/pages/EmployeeFormPage.jsx:84-88 | every field becomes touched; form and errors are kept |
| EmployeeFormPage.FormController.ShowErrors | client/src/pages/EmployeeFormPage.jsx:93-94 | errors become the given validation errors; form and touched are kept |
| EmployeeFormPage.FormController.CheckSubmission | client/src/pages/EmployeeFormPage.jsx:83-97 | every field is touched; accepted exactly when the form passes; if not, errors are the whole-form validation errors and every touched field's error is in step with its value; if so, errors are kept and stay in step if they were |
| EmployeeFormPage.FormController.SendSubmission | client/src/pages/EmployeeFormPage.jsx:99-120 | sends an update with the route id when editing and a create otherwise; a failure mentioning "email" and "exists" sets only the email error; isSubmitting ends false |
| EmployeeFormPage.FormController.HandleSubmit | client/src/pages/EmployeeFormPage.jsx:80-121 | every field touched; an invalid form sends nothing and stores its validation errors, which are in step with the values; a valid one sends update or create as above, and errors in step before stay in step unless the email is reported taken; isSubmitting ends false; the form is kept |
| EmployeeTable.DeleteConfirmation.DeleteDisabled | client/src/components/EmployeeTable.jsx:101 | a delete button is disabled exactly when `deletingId` equals that employee's id; `EmployeeTable.DeleteConfirmation.BeginConfirm` and `EmployeeTable.DeleteConfirmation.FinishConfirm` state when it holds |
| EmployeeTable.DeleteConfirmation.constructor | client/src/components/EmployeeTable.jsx:6-8 | nothing in flight, modal closed, nothing selected |
| EmployeeTable.DeleteConfirmation.HandleDeleteClick | client/src/components/EmployeeTable.jsx:10-13 | selects the employee and opens the modal |
| EmployeeTable.DeleteConfirmation.BeginConfirm | client/src/components/EmployeeTable.jsx:15-19 | with no selection nothing changes and no call is made; otherwise the call carries the selected id, which is marked in flight, so its delete button is disabled (line 101) |
| EmployeeTable.DeleteConfirmation.FinishConfirm | client/src/components/EmployeeTable.jsx:20-22 | nothing in flight (no button disabled), modal closed, selection cleared |
| EmployeeTable.DeleteConfirmation.CancelDelete | client/src/components/EmployeeTable.jsx:27-30 | modal closed and selection cleared; no deletion starts |
| EmployeeListPage.ViewOf | client/src/pages/EmployeeListPage.jsx:47-226 | the view the page renders; its contract is stated by `EmployeeListPage.ViewPrecedence`, `EmployeeListPage.DirectoryShowsFilter`, `EmployeeListPage.NoMatchesIsNotEmptyState` and `EmployeeListPage.CountersBounded` |
| EmployeeListPage.DistinctPositions | client/src/pages/EmployeeListPage.jsx:164 | the size of the set of positions; its contract is stated by `EmployeeListPage.PositionsBounded` and `EmployeeListPage.PositionsNotDepartments` |
| EmployeeListPage.ViewPrecedence | client/src/pages/EmployeeListPage.jsx:47-71 | spinner exactly when loading; error panel exactly when not loading and the error is truthy; empty state exactly when neither and the list is empty; the directory otherwise |
| EmployeeListPage.DirectoryShowsFilter | client/src/pages/EmployeeListPage.jsx:18-20 | the table shows `filterEmployees(employees, searchTerm)`: a subsequence of the list holding, for a non-blank term, exactly the matching employees |
| EmployeeListPage.NoMatchesIsNotEmptyState | client/src/pages/EmployeeListPage.jsx:192-217 | with employees loaded and none matching, the directory shows "No Results" for the term with a result count of 0, never the empty state |
| EmployeeListPage.CountersBounded | client/src/pages/EmployeeListPage.jsx:112 | the total is the list's length, between 1 and that many distinct positions, and at most that many results |
| EmployeeListPage.PositionsBounded | client/src/pages/EmployeeListPage.jsx:164 | a list has at most as many distinct positions as entries, and at least one when non-empty |
| EmployeeListPage.PositionsNotDepartments | client/src/pages/EmployeeListPage.jsx:164 | two engineers in different departments count once: the counter counts positions |
| EmployeeListPage.FilterAfterRemoval | client/src/pages/EmployeeListPage.jsx:18-20 | filtering after a local removal equals removing from the filtered list |
| EmployeeListPage.ListPage.constructor | client/src/pages/EmployeeListPage.jsx:15 | the search term starts as '' |
| EmployeeListPage.ListPage.HandleSearch | client/src/pages/EmployeeListPage.jsx:26-28 | the term becomes the search term and the displayed list is the filter by it |
| EmployeeListPage.ListPage.ClearSearch | client/src/pages/EmployeeListPage.jsx:220 | the term becomes '' and the displayed list is the whole list |
| EmployeeListPage.ListPage.HandleDeleteEmployee | client/src/pages/EmployeeListPage.jsx:30-44 | returns the hook's result unchanged; on success the displayed list loses exactly the entries carrying the id; on failure the list is unchanged |
| EmployeeListPage.ListPage.ConfirmDelete | client/src/components/EmployeeTable.jsx:15-25 | with no selection nothing changes; otherwise the selected id is deleted through the page while its button is disabled, the result reports the outcome, and the modal ends closed with nothing in flight |

## Left out

- Presentation is not modelled: JSX rendering, styling, animation, toasts, navigation and console logging.
- The HTTP client layer is not part of this model. Each request is a parameter carrying its outcome: a body, or a failure with some message. Routing, the Express bootstrap and the router configuration are also left out.
- The database is an id-to-row map with an auto-increment id. Every store call may fail with a given message.
  - Unique-email enforcement is only such a failure.
  - An id that `Number` cannot read makes the store call fail, and the handler reports it like any other failure.
- EmployeeController.Controller.GetAllEmployees: the store's listing order is not visible. The model lists rows by ascending id, and its contract promises only that every row appears once.
- EmployeeController.Body: a request body field is a string or absent (undefined). A JSON `null` or a non-string value is not modelled, so what the ORM writes or rejects for one is not captured.
- EmployeeController.Merge: an update field that is undefined leaves its column unchanged. This is the ORM's rule, which the handler does not show, and the model assumes it.
- Text.NumberOfDecimal: integers are unbounded here. JavaScript's `Number` is exact only below 2^53, and `String` switches to exponent notation from 10^21. Ids are assumed to stay below 2^53, where `Number(String(id)) == id` holds.
- Text.NumberOf models `Number` only on decimal digits with surrounding whitespace ('' reads as 0). Other numeric forms (signs, fractions, exponents, hex, Infinity) read as not-a-number and so fail the lookup.
- Validation.ValidateField: the schema library's choice of message when several rules of one field fail is not visible.
  - The model takes the first failing check in declaration order.
  - The contracts promise only a message of some failing check.
  - Likewise, the form errors keep the last collected message per path, and their contract promises only one of the failures.
- Validation.EmailSyntax: the library's email regular expression is not visible. It is a parameter of every check that needs it.
- Validation.Passes: `min`, `max` and `matches` skip only null and undefined, and `email()` also skips ''. The model applies these rules to ''. The consequence for the optional fields is stated above.
- Lengths count `seq<char>` elements. JavaScript counts UTF-16 code units.
- `toLowerCase` is modelled as an ASCII case map; Unicode case folding is out.
- `trim` uses a fixed set of whitespace characters.
- `debounce` and `formatDate` are not modelled: they depend on timers and on locale formatting.
- Asynchronous scheduling and state batching are not modelled.
  - Each handler is one atomic step.
  - `confirmDelete`'s await is split into the step before the call and the step after it.
  - EmployeeFormPage.FormController.HandleSubmit's `isSubmitting` is true only inside the step, so only its final false value is visible.
- EmployeeFormPage.FormController.HandleBlur reads the field's value from `formData`. The inputs are controlled, so this is the event target's value.
