# Student attendance and student records — a verified model

This project models the core of a student-management back end. Each student document
embeds an ordered list of attendance records, a list of ratings and a list of badge
references. It covers two parts:

- The **attendance service**. It validates student ids and attendance data and detects a
  duplicate (day, week, month) key. It creates, updates and deletes attendance records,
  lists them filtered and newest first, and computes overall and per-month statistics.
- The **decision logic of the student handlers**: pagination arithmetic, validation of
  name, email and phone with the email pattern, the conflict report against other stored
  students, keep-the-old-value updates, and the edits of the ratings and badge lists.

The main invariant is that no two attendance records of a student share a
(day, week, month) key and that every key is in range. Create, update and delete all
keep it. Each edit of an embedded list is first stated as a function on sequences
(`AppendAttendance`, `ReplaceAttendance`, `RemoveAttendance`, `AppendRating`,
`ReviseRating`, `DropRating`, `WithBadge`, `WithoutBadge`). The method that changes the
`Student` object is then proved to leave exactly that list behind and every other field
untouched.

The store is not modelled. What a find-by-id returns is a parameter `lookup: Student?`
(null when there is no such student). The other stored students that a uniqueness query
searches are a parameter `others: seq<Contact>`. New sub-document ids, timestamps and the
random student code are parameters too (`newId`, `now`, `studentCode`).

Files: `outcomes.dfy` (Option, Result), `lists.dfy` (filter, findIndex, splice),
`student_model.dfy` (the student class and embedded records), `attendance_service.dfy`,
`attendance_listing.dfy`, `attendance_stats.dfy`, `email_pattern.dfy`, `student_routes.dfy`.

Points where the model departs from a literal reading of the code, and why:

- The monthly breakdown is a plain object keyed by month numbers, and JavaScript enumerates
  such integer-like keys in ascending order. The model returns an unordered `map` and
  makes no claim about key order.
- The rating update spreads the stored sub-document without calling `toObject()` first
  (`routes/students.js:467-470`, unlike `services/attendanceService.js:166`). As written,
  the spread need not carry the stored field values. The model takes a field-wise merge
  of the five rating fields.
- The store's schema declares no `attendance` list, but the service reads and writes one.
  The model gives the student the list the service uses.

## Model

| member | source | states |
|---|---|---|
| AttendanceService.ValidObjectId | services/attendanceService.js:7-9 | an id is accepted iff it has exactly 24 characters and every one is a hexadecimal digit |
| AttendanceService.FindStudentById | services/attendanceService.js:12-23 | succeeds iff the id is well-formed and the store has the student; a malformed id fails with the format error, a well-formed id with no student fails with the distinct not-found error |
| AttendanceService.InvalidIdIgnoresStore | services/attendanceService.js:13-15 | a malformed id fails identically whatever the store holds, so the id check comes before any lookup |
| AttendanceService.MissingAttendanceFields | services/attendanceService.js:27-33 | names exactly the absent fields, each once, in the order day, week, month, status; empty iff all four are present (0 and false count as present) |
| AttendanceService.ValidateAttendanceData | services/attendanceService.js:26-50 | missing fields fail first, all of them reported together; otherwise the first out-of-range field fails, day before week before month; otherwise the result is in range with status coerced by JavaScript truthiness; complete, in-range input always succeeds |
| AttendanceService.CheckDuplicateAttendance | services/attendanceService.js:53-60 | returns a record iff some index other than excludeIndex carries the (day, week, month) key, and then the first such record; a negative excludeIndex excludes nothing |
| AttendanceService.IndexOfEntry | services/attendanceService.js:124-126 | the first index whose record has the id, or none iff no record has it |
| AttendanceService.AppendAttendance | services/attendanceService.js:98-118 | validation errors pass through; fails with the duplicate error iff the key is already used; otherwise appends exactly the validated record; preserves unique keys and in-range keys |
| AttendanceService.FirstCreateSucceeds | services/attendanceService.js:100-113 | complete, in-range fields whose key no stored record has are appended |
| AttendanceService.SecondCreateIsDuplicate | services/attendanceService.js:103-112 | creating the same key a second time is refused as a duplicate |
| AttendanceService.Merge | services/attendanceService.js:165-169 | supplied day, week and month win, a supplied status is coerced by truthiness, id and createdAt are kept; an empty body is the identity and a body without date fields keeps the key |
| AttendanceService.PatchRangeError | services/attendanceService.js:135-143 | only the supplied date fields are range-checked, in the order day, week, month, and the first failing one is reported |
| AttendanceService.ReplaceAttendance | services/attendanceService.js:121-173 | an unknown id fails with not-found; range errors come next; when a date field is supplied it fails iff another record has the merged key; on success only the record's index changes, to the merge; preserves unique keys and in-range keys |
| AttendanceService.UpdateToOwnKeySucceeds | services/attendanceService.js:146-157 | resupplying a record's own date succeeds because its own index is excluded |
| AttendanceService.UpdateOntoOtherKeyFails | services/attendanceService.js:146-161 | moving a record onto another record's key fails with the duplicate error |
| AttendanceService.RemoveAttendance | services/attendanceService.js:176-191 | an unknown id fails with not-found; otherwise the result is the list without the first record with the id; preserves unique keys and in-range keys |
| AttendanceService.CreateAttendance | services/attendanceService.js:98-118 | looks the student up before validating; on any failure the student is unchanged; on success the attendance list becomes AppendAttendance's result and no other field changes |
| AttendanceService.UpdateAttendance | services/attendanceService.js:121-173 | on failure the student is unchanged; on success the attendance list becomes ReplaceAttendance's result and no other field changes |
| AttendanceService.DeleteAttendance | services/attendanceService.js:176-191 | on failure the student is unchanged; on success the attendance list becomes RemoveAttendance's result and no other field changes |
| AttendanceListing.ApplyFilters | services/attendanceService.js:66-77 | keeps every occurrence of each record that passes every supplied filter (month, week, status equal to the text "true") and drops all the others |
| AttendanceListing.InsertByRecency | services/attendanceService.js:80 | inserting into a newest-first list gives a newest-first list with one more occurrence of the record |
| AttendanceListing.SortByRecency | services/attendanceService.js:80 | the sort is a permutation and puts the most recently created records first |
| AttendanceListing.InsertKeepsTies | services/attendanceService.js:80 | inserting puts the record ahead of every record with the same creation time |
| AttendanceListing.SortKeepsTies | services/attendanceService.js:80 | the sort is stable: records with the same creation time keep their stored order |
| AttendanceListing.GetAllAttendance | services/attendanceService.js:63-83 | every returned record is stored and passes the filters; every stored record that passes is returned, as often as it is stored; the result is newest first; records with equal createdAt keep their stored order; the stored list is only read |
| AttendanceListing.GetAttendanceById | services/attendanceService.js:86-95 | succeeds iff some record has the id, and then returns a stored record with that id; otherwise fails with not-found |
| AttendanceStats.Percentage | services/attendanceService.js:201 | the percentage is 100 · present / total exactly, 0 when there are no records, and at most 100 |
| AttendanceStats.MonthsOccur | services/attendanceService.js:204-215 | a month is among the scanned months iff some record has it |
| AttendanceStats.UnseenMonthCountsNothing | services/attendanceService.js:204-215 | a month with no record has no counted total, present or absent |
| AttendanceStats.MonthSplits | services/attendanceService.js:209-214 | each record of a month counts as exactly one of present or absent |
| AttendanceStats.CountedRecordIsCounted | services/attendanceService.js:206-209 | a month that has a record has a positive total |
| AttendanceStats.TalliesSnoc | services/attendanceService.js:205-215 | scanning one more record changes only its month's counters, by one, as the loop body does |
| AttendanceStats.MonthlyTotalsSum | services/attendanceService.js:204-215 | the per-month totals add up to the number of records |
| AttendanceStats.TalliesAgree | services/attendanceService.js:204-215 | the breakdown's months are exactly the records' months, and each month's present and absent add up to its positive total |
| AttendanceStats.StatsOf | services/attendanceService.js:194-231 | present is the number of records with status true, and present + absent = total; the overall percentage is present / total × 100, and 0 when there are no records; no records gives an empty breakdown; each month appears iff some record has it, with its own counts and percentage; the monthly totals sum to the overall total |
| AttendanceStats.StatsExample | services/attendanceService.js:194-231 | three records over two months give totals 3, 2, 1 with 200/3 %, month 1 → 2, 1, 1 at 50 % and month 2 → 1, 1, 0 at 100 % |
| AttendanceStats.ScanMonths | services/attendanceService.js:204-215 | the counting loop over the records produces exactly the per-month counts |
| AttendanceStats.GetAttendanceStats | services/attendanceService.js:194-231 | fails as the student lookup fails; otherwise returns StatsOf of the stored list |
| Lists.FilterCounts | services/attendanceService.js:69-77 | filtering keeps every occurrence of each element that satisfies the predicate and drops all the others |
| Lists.FilterAppend | routes/students.js:570-572 | filtering distributes over concatenation, so the survivors keep their relative order |
| Lists.FilterKeepsAll | routes/students.js:570-572 | filtering a list whose elements all pass returns the list unchanged |
| Lists.FirstIndex | routes/students.js:456-458 | returns the first index whose element satisfies the predicate, or none iff no element does |
| Lists.RemoveAt | routes/students.js:509 | removing index i shifts the later elements down by one and drops exactly one occurrence of the removed element |
| EmailPattern.ValidEmail | routes/students.js:157-159 | the test accepts a string iff the pattern `^[^\s@]+@[^\s@]+\.[^\s@]+$` matches it under some split into its three runs |
| EmailPattern.PatternIsShape | routes/students.js:159 | the pattern matches iff the string has no white space, exactly one '@', not in front, and after it a '.' that is neither the domain's first nor its last character |
| StudentRoutes.NormalizePagination | routes/students.js:14-19 | page ≥ 1, limit ≥ 1 and skip = (page − 1) · limit ≥ 0; a positive request is kept; any other page becomes 1; limit 0 or unparseable becomes 20 and a negative limit becomes 10 (the filtered listing repeats this at lines 70-75) |
| StudentRoutes.PageLength | routes/students.js:22 | the store returns at most `limit` students and never reads past the total |
| StudentRoutes.PageOf | routes/students.js:22 | the returned page is the run of students that starts at position skip, of PageLength's length |
| StudentRoutes.CeilDiv | routes/students.js:34 | the page count is the least number of pages of that size that hold all students |
| StudentRoutes.PaginationInfo | routes/students.js:30-37 | totalPages is the ceiling of total / limit; there is a next page iff skip + returned < total; there is a previous page iff page > 1 |
| StudentRoutes.NextPageIffBeforeLast | routes/students.js:34-36 | for a normalised page and the page PageOf returns for it, "has a next page" holds iff page < totalPages |
| StudentRoutes.ValidateNewStudent | routes/students.js:150-173 | succeeds iff the name is non-empty, the email matches the pattern and the phone is non-empty; otherwise the first failing check, in the order name, email, phone, is reported |
| StudentRoutes.UsedFields | routes/students.js:181-183 | "email" is reported iff the found student has that email and "phone" iff it has that phone, with email before phone |
| StudentRoutes.AdmitStudent | routes/students.js:175-191 | validation errors pass through; otherwise it succeeds iff no stored student shares the email or the phone; a conflict report is never empty |
| StudentRoutes.CreateStudent | routes/students.js:141-198 | on success a new student holds the admitted contact fields, the generated code and empty lists |
| StudentRoutes.RevisedContact | routes/students.js:226-231 | a supplied field takes the body's value; a field changes iff it is supplied with a different value (for email and phone, exactly the changes the conflict query looks at); an empty body keeps the contact, a full body replaces it |
| StudentRoutes.RevisedContactLaws | routes/students.js:226-231 | applying a body twice equals applying it once; two bodies in a row equal one body carrying the later value of each field |
| StudentRoutes.ReviseStudent | routes/students.js:226-287 | fails with the email error iff the resulting email does not match the pattern; otherwise fails iff another student holds a supplied value that differs from the current one; a conflict report is never empty; success yields the revised contact |
| StudentRoutes.ResubmitIsNoOp | routes/students.js:244-252 | an empty body, or one that repeats the current values, succeeds and changes nothing when the stored email is valid |
| StudentRoutes.RenameNeverConflicts | routes/students.js:244-255 | a body that only renames never triggers the conflict query |
| StudentRoutes.UpdateStudent | routes/students.js:214-292 | on failure the student is unchanged; on success name, email and phone become ReviseStudent's result and the code and lists keep their values |
| StudentRoutes.MissingRatingFields | routes/students.js:395-401 | names exactly the absent rating fields, each once, in the order week, day, assignments, participation, performance; empty iff all are present |
| StudentRoutes.FieldNames | routes/students.js:407 | the error text lists the names of the missing fields in the same order |
| StudentRoutes.AppendRating | routes/students.js:395-417 | fails naming the missing fields iff one is absent; otherwise appends exactly one rating built from the body and leaves the earlier ratings as they were |
| StudentRoutes.IndexOfRating | routes/students.js:456-458 | the first index whose rating has the id, or none iff no rating has it |
| StudentRoutes.MergeRating | routes/students.js:467-470 | the id and the date stay; every score the body carries is taken and every other score is kept; an empty body is the identity; a complete body overrides all five scores |
| StudentRoutes.MergeRatingLaws | routes/students.js:467-470 | applying the same body twice equals applying it once; two updates in a row equal one update with the later body laid over the earlier |
| StudentRoutes.ReviseRating | routes/students.js:456-470 | an unknown id fails with not-found; otherwise only the first rating with the id is replaced, by its merge with the body |
| StudentRoutes.ReviseKeepsIds | routes/students.js:456-470 | an update keeps the length and every rating id, so the updated rating is found again at the same index |
| StudentRoutes.DropRating | routes/students.js:498-509 | an unknown id fails with not-found; otherwise exactly the first rating with the id is removed |
| StudentRoutes.AddThenDeleteRating | routes/students.js:498-509 | deleting a freshly added rating by its new id gives the old list back |
| StudentRoutes.AddRating | routes/students.js:384-417 | a missing student fails with not-found; on failure nothing changes; on success the ratings become AppendRating's result and nothing else changes |
| StudentRoutes.UpdateRating | routes/students.js:446-470 | on failure nothing changes; on success the ratings become ReviseRating's result and nothing else changes |
| StudentRoutes.DeleteRating | routes/students.js:488-509 | on failure nothing changes; on success the ratings become DropRating's result and nothing else changes |
| StudentRoutes.WithBadge | routes/students.js:537-540 | the badge id is in the result; the result holds exactly the old badges and the id; the id is appended only when it was absent |
| StudentRoutes.AddBadgeIdempotent | routes/students.js:537-540 | adding the same badge twice equals adding it once, and adding never creates a duplicate |
| StudentRoutes.WithoutBadge | routes/students.js:570-572 | the badge id no longer occurs, every other badge keeps its multiplicity, and the list shrinks by the number of occurrences removed |
| StudentRoutes.RemoveBadgeKeepsOrder | routes/students.js:570-572 | removal keeps the remaining badges in their stored order and leaves a list without the id unchanged |
| StudentRoutes.AddThenRemoveBadge | routes/students.js:537-572 | removing a badge just added to a list without it gives the list back |
| StudentRoutes.AddBadge | routes/students.js:527-540 | a missing student fails with not-found; otherwise the badges become WithBadge's result and nothing else changes |
| StudentRoutes.RemoveBadge | routes/students.js:560-573 | a missing student fails with not-found; otherwise the badges become WithoutBadge's result and nothing else changes |

## Left out

- Database access is not modelled: find-by-id, the `$or` uniqueness queries, counting,
  saving, populating and deleting. Their results are parameters. Which matching student
  the uniqueness query returns is up to the store; the model takes the first in `others`.
- The HTTP layer is not modelled: the attendance controller and router, response
  envelopes, and status codes chosen by matching error text.
- File handling is not modelled: upload storage, photo paths and deleting old photos.
  Server start-up and the badge collection's own CRUD handlers are left out too.
- Fetching one student by id, and deleting a student, are store calls with no logic
  beyond an id check. They are left out.
- An id that the store cannot cast makes the student handlers throw, which ends in a
  generic error response. The model treats every lookup result as a student or null.
- Percentages are exact fractions (`Rate`). `toFixed(2)` rounding and `parseFloat` are
  floating-point formatting and are not modelled.
- Sub-document ids, timestamps and the random student code come from the store, the
  clock and a random generator. They are parameters.
- JavaScript coercions of request values are not modelled: `parseInt` of query text,
  comparisons between strings and numbers, and non-string form fields. Days, weeks,
  months, ratings and page numbers are integers; contact fields are strings or absent;
  only the attendance status keeps JavaScript's truthiness (`JsValue`).
- AttendanceService.ReplaceAttendance: models only day, week, month and status. Any other
  key the update body carries, including an `_id`, is not copied into the record.
- StudentRoutes.MergeRating: models the five rating fields only. Other body keys, and
  whatever copying the stored sub-document itself adds, are not modelled.
- StudentRoutes.AppendRating: keeps `day` in the new rating. The stored rating schema
  declares no `day`, so the store would drop it on save.
- Checks the store makes on save are left out: required name and phone on update, the
  0–100 bounds and defaults of rating scores, and the unique indexes.
- A badge id missing from the add-badge body is modelled as a string.
- Concurrency between requests, and the re-read after a badge change, are not modelled.
- AttendanceStats.StatsOf: says nothing about the order of the breakdown's month keys,
  because JavaScript prints integer-like keys in ascending order, not in scan order.
