# Complaint update builder and admin role gate

This project models the two pieces of application logic of a small Express
backend for customer complaints:

- **The partial-update handler** of the users router (`PUT /:id`). It builds a
  parameterized `UPDATE complaint SET ... WHERE "ComplaintId" = $n` statement
  that sets only the fields the request supplies. It looks at the candidate
  fields in a fixed order: `subject`, `description`, `status`, `type`,
  `priority`, then `attachment_path` from an uploaded file. For each truthy
  field it pushes a clause `name = $i` onto `fields` and the value onto
  `values`, and it bumps the counter `i`. If nothing was pushed it answers
  400 `{ error: "No data to update." }` and issues no query. Otherwise it
  joins the clauses with `", "` and puts the complaint id in the WHERE clause
  under placeholder `$i`, as the last parameter. It answers 404
  `{ error: "Complaint not found." }` when the statement returns no row, and
  otherwise the first row.
- **The admin gate** middleware. It calls `next()` when the `x-role` header is
  exactly `"admin"`, and otherwise answers 403 `{ message: "Admin access only" }`.

Modules:

- `Wrappers` (`wrappers.dfy`): `Option`, for absent body fields and headers.
- `Text` (`text.dfy`): how the handler writes numbers in a template literal
  (`Decimal`), and `Array.prototype.join` (`Join`). Each has a parser that
  inverts it (`ParseNat`, `SplitList`), with round-trip lemmas.
- `AdminAuth` (`admin_auth.dfy`): the gate, as a function that returns
  `Next` or `Respond(status, message)`. Because these are the two
  constructors of one datatype, exactly one of "call next" and "send a
  response" happens.
- `ComplaintUpdate` (`complaint_update.dfy`): the handler, as imperative
  methods over `seq` values. `PushField` is one `if (field) { push; push }`
  block. `BuildAssignments` runs the six blocks in order. `UpdateComplaint`
  is the whole handler. They are verified against a declarative
  specification. `Included` is the truthy candidates in order.
  `SetClauses`, `Values` and `SetList` are the clause list, the value list
  and the joined SET list, with placeholders numbered from 1. `ParseClause`
  reads a clause back.
- `UpdateProperties` (`update_properties.dfy`): lemmas about that
  specification.

The database is not modelled. `UpdateComplaint` takes the rows the statement
would return as an input, and it returns the statement it would issue
(`None` when it answers 400 before any query). A field that the request
does not send is `None`. JavaScript truthiness of a string is "present and
non-empty" (`Truthy`).

Unlike the other handlers of this router (routes/users.js:44, 61, 130), the
update handler never reads `x-user-id`: its WHERE clause matches on the
complaint id alone, and the model follows it.

The `x-role` header is an optional string. Node joins a repeated header into
one comma-separated string, so it never arrives as an array.

## Model

| member | source | states |
|---|---|---|
| AdminAuth.Gate | middleware/adminAuth.js:1-9 | the request is passed on iff the `x-role` header is present and exactly `"admin"` (case-sensitive; a missing header is refused); otherwise the answer is status 403 with message `"Admin access only"` |
| ComplaintUpdate.PushField | routes/users.js:83-106 | one builder block keeps the state in step with the specification: if `fields`/`values`/`i` described the assignments `a`, afterwards they describe `a` followed by this candidate's assignment when its value is truthy, and by nothing otherwise |
| ComplaintUpdate.BuildAssignments | routes/users.js:79-106 | after the six blocks, `fields` is the SET clauses of exactly the truthy candidates in the fixed order, numbered `$1..$n`; `values` is their values in the same order; and `i == n + 1` |
| ComplaintUpdate.UpdateComplaint | routes/users.js:74-126 | with no truthy field: no query and a 400 "No data to update." answer. Otherwise the issued query is the UPDATE text with the joined SET list and WHERE placeholder `$(n+1)`, and the parameters are the values followed by the id. The answer is 404 "Complaint not found." for no rows, else the first row |
| ComplaintUpdate.IncludedCandidates | routes/users.js:83-106 | the assignments of a request are the contributions of subject, description, status, type, priority and the file path, concatenated in that order |
| ComplaintUpdate.SetClauses | routes/users.js:84-104 | one SET clause per assignment |
| ComplaintUpdate.Values | routes/users.js:85-105 | one value per assignment |
| UpdateProperties.IncludedIsOrderedFilter | routes/users.js:83-106 | the assignments are the ordered filter of the truthy candidates. The k-th comes from the k-th truthy candidate, positions strictly increase, and every truthy candidate is taken |
| UpdateProperties.SetIffTruthy | routes/users.js:83-106 | a field is set iff the request's value for it is truthy (both directions) |
| UpdateProperties.SetInFixedOrder | routes/users.js:83-106 | the set fields follow the fixed order subject, description, status, type, priority, attachment_path, so none appears twice |
| UpdateProperties.SetFromRequest | routes/users.js:83-106 | each set field is bound to the request's own, truthy value for that field |
| UpdateProperties.NoDataIffNothingTruthy | routes/users.js:108-110 | the assignment list is empty (the 400 case) iff no candidate is truthy |
| UpdateProperties.AttachmentPathLast | routes/users.js:76-106 | a truthy file path is always the last assignment, and its clause `attachment_path = $n` is the last clause |
| UpdateProperties.AttachmentPathNowhereElse | routes/users.js:76-106 | `attachment_path` is set at no position but the last, and never without a truthy file path |
| UpdateProperties.PlaceholdersBindValues | routes/users.js:81-117 | the k-th clause uses placeholder `$(k+1)` and the k-th parameter is that assignment's value. There is exactly one more parameter than clauses, the last parameter is the id, and the WHERE placeholder number is the parameter count |
| UpdateProperties.ClauseRoundTrip | routes/users.js:84-104 | a clause `name = $k` reads back as exactly its column and placeholder number |
| UpdateProperties.ClauseAt | routes/users.js:84-104 | the k-th SET clause reads back as the k-th assignment's column with placeholder `k+1` |
| UpdateProperties.SetListDecodes | routes/users.js:112-116 | the SET list of a non-empty update splits back into exactly its clauses, and those read back as the assignments' columns numbered 1, 2, ... |
| UpdateProperties.UntouchedFieldNeverNamed | routes/users.js:83-113 | no field the request leaves absent or empty is named by any clause of the SET list |
| Text.Decimal | routes/users.js:84-114 | a placeholder number renders as a non-empty string of decimal digits with no leading zero |
| Text.DecimalRoundTrip | routes/users.js:84-114 | reading a rendered placeholder number gives back the number |
| Text.DecimalInjective | routes/users.js:81-114 | different counter values render as different placeholder texts, so no placeholder repeats |
| Text.SplitJoinRoundTrip | routes/users.js:113 | splitting a `", "`-joined list of comma-free parts recovers the parts |
| Text.Join | routes/users.js:113 | `fields.join(", ")`: a non-empty list's text starts with its first part, and its length is the parts' total length plus one separator per pair of neighbours; `SplitJoinRoundTrip` inverts it |
| ComplaintUpdate.Truthy | routes/users.js:83-103 | (definition) the `if (field)` test on a string field: present and non-empty |
| ComplaintUpdate.Candidates | routes/users.js:75-106 | (definition) the six candidate fields in the order the blocks test them, the uploaded file's path last; `CandidateRanks` states that the j-th has rank j |
| ComplaintUpdate.Included | routes/users.js:83-106 | (definition) the assignments made: each candidate's contribution in order, which `IncludedIsOrderedFilter` characterises as the ordered filter of the truthy candidates |
| ComplaintUpdate.Clause | routes/users.js:84-104 | (definition) the clause template `name = $k`; `ClauseRoundTrip` reads it back to its column and number |
| ComplaintUpdate.UpdateStatement | routes/users.js:112-116 | (definition) the statement's template text around the SET list and the WHERE placeholder number; `UpdateComplaint` issues it with `SetList(a)` and the assignment count plus one |

`Text.IndexOf`, `ParseNat`, `SplitList`, `ColumnNamed` and `ParseClause` are
not part of the handler: they read the statement's pieces back, so that the
round-trip lemmas above can state what the pieces mean.

## Left out

- The database call (routes/users.js:119) is not modelled: the rows it returns are an input, and the statement is reported rather than executed.
- The multer disk storage and upload file names (routes/users.js:9-20) depend on the clock and on randomness. The model starts from `req.file.path`, as an optional string.
- The other routes are single SQL statements whose behaviour lives in the database, so they are not modelled: GET, POST and DELETE of routes/users.js, all of routes/complaints.js and routes/auth.js. The bootstrap in server.js is not modelled either. As written, server.js mounts only the complaints router, not the users router.
- Body fields are modelled as optional strings. `express.json()` and `express.urlencoded({ extended: true })` (server.js:11-12) can deliver numbers, booleans, `null`, arrays or objects. Multer collects a repeated text field into an array. None of these is modelled: their JavaScript truthiness (`0` and `false` are falsy; `[]` and `{}` are truthy) and pushing them unconverted as parameters are left out.
- The handler does not catch a rejected `db.query` (routes/users.js:119), and then sends no response. The model assumes the statement always returns rows.
- `uploadDir` is never defined (routes/users.js:11), so as written, any request carrying a file fails in multer's destination callback before the handler runs. When the handler does run, the file path is therefore always absent. The model lets the file path be any optional string, which covers this and also describes the handler once the upload directory exists.
- Asynchronous request handling and concurrent requests are not modelled: the handler runs as one sequential step.
