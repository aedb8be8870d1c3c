/** The attendance domain service: resolving the student, validating request data, detecting a
    duplicate (day, week, month) key, and the create, update and delete edits of the embedded
    attendance list. Each edit is specified by a function on the list, and the method that
    performs it on the student object is proved to leave exactly that list behind. */
module AttendanceService {
  import opened Outcomes
  import opened Lists
  import opened StudentModel

  /** The distinguishable failures of the service. */
  datatype ServiceError =
    | InvalidIdFormat(studentId: string)
    | StudentNotFound(studentId: string)
    | AttendanceNotFound(attendanceId: string)
    | MissingFields(fields: seq<string>)
    | DayOutOfRange
    | WeekOutOfRange
    | MonthOutOfRange
    | DuplicateAttendance(day: int, week: int, month: int)

  // ---------------------------------------------------------------- student id

  predicate IsHexDigit(c: char) {
    '0' <= c <= '9' || 'a' <= c <= 'f' || 'A' <= c <= 'F'
  }

  function AllHexDigits(s: string): (ok: bool)
    ensures ok <==> forall i :: 0 <= i < |s| ==> IsHexDigit(s[i])
  {
    s == [] || (IsHexDigit(s[0]) && AllHexDigits(s[1..]))
  }

  /** The syntactic student-id check: exactly 24 hexadecimal digits. (The store's own
      validity test also admits 12-character strings, but the 24-digit pattern is required
      as well, so it decides.) */
  function ValidObjectId(id: string): (ok: bool)
    ensures ok <==> |id| == 24 && forall i :: 0 <= i < |id| ==> IsHexDigit(id[i])
  {
    |id| == 24 && AllHexDigits(id)
  }

  /** Resolve the student. `lookup` is what the store's find-by-id returns for `studentId`
      (null when there is no such student); it is consulted only for a well-formed id. */
  function FindStudentById(studentId: string, lookup: Student?): (r: Result<Student, ServiceError>)
    ensures r.Success? <==> ValidObjectId(studentId) && lookup != null
    ensures r.Success? ==> r.value == lookup
    ensures !ValidObjectId(studentId) ==> r == Failure(InvalidIdFormat(studentId))
    ensures ValidObjectId(studentId) && lookup == null ==> r == Failure(StudentNotFound(studentId))
  {
    if !ValidObjectId(studentId) then Failure(InvalidIdFormat(studentId))
    else if lookup == null then Failure(StudentNotFound(studentId))
    else Success(lookup)
  }

  /** An invalid id fails the same way whatever the store holds: the store is never asked. */
  lemma InvalidIdIgnoresStore(studentId: string, a: Student?, b: Student?)
    requires !ValidObjectId(studentId)
    ensures FindStudentById(studentId, a) == FindStudentById(studentId, b)
    ensures FindStudentById(studentId, a).Failure? && FindStudentById(studentId, a).error.InvalidIdFormat?
  {
  }

  // ---------------------------------------------------------------- request values

  /** A request-body value, as far as `Boolean(...)` tells values apart. */
  datatype JsValue = JsBool(b: bool) | JsNumber(n: int) | JsString(s: string) | JsNull

  /** JavaScript's `Boolean(v)`: false, 0, "" and null are false, everything else is true
      (so the string "false" is true). */
  function Truthy(v: JsValue): bool {
    match v
    case JsBool(b) => b
    case JsNumber(n) => n != 0
    case JsString(s) => s != ""
    case JsNull => false
  }

  /** The fields of a create or update request body; `None` is a field the body does not
      carry. A create request needs all four; an update request may carry any subset. */
  datatype AttendanceInput = AttendanceInput(
    day: Option<int>, week: Option<int>, month: Option<int>, status: Option<JsValue>)

  /** The fields of a create request once validated, with the status coerced. */
  datatype AttendanceData = AttendanceData(day: int, week: int, month: int, status: bool)

  const RequiredFields: seq<string> := ["day", "week", "month", "status"]

  /** The position of a field name in the order the checks run. */
  function FieldRank(field: string): int {
    if field == "day" then 0
    else if field == "week" then 1
    else if field == "month" then 2
    else 3
  }

  predicate IsMissing(input: AttendanceInput, field: string) {
    || (field == "day" && input.day.None?)
    || (field == "week" && input.week.None?)
    || (field == "month" && input.month.None?)
    || (field == "status" && input.status.None?)
  }

  predicate AllPresent(input: AttendanceInput) {
    input.day.Some? && input.week.Some? && input.month.Some? && input.status.Some?
  }

  predicate DayInRange(day: int) { 1 <= day <= 31 }
  predicate WeekInRange(week: int) { 1 <= week <= 53 }
  predicate MonthInRange(month: int) { 1 <= month <= 12 }

  /** The names of the absent fields, each once, in the order day, week, month, status.
      Presence means "not undefined": 0, false and null are present. */
  function MissingAttendanceFields(input: AttendanceInput): (fields: seq<string>)
    ensures forall f :: f in fields <==> f in RequiredFields && IsMissing(input, f)
    ensures forall i, j :: 0 <= i < j < |fields| ==> FieldRank(fields[i]) < FieldRank(fields[j])
    ensures fields == [] <==> AllPresent(input)
  {
    (if input.day.None? then ["day"] else [])
    + (if input.week.None? then ["week"] else [])
    + (if input.month.None? then ["month"] else [])
    + (if input.status.None? then ["status"] else [])
  }

  /** Validate a create request: all missing fields are reported together; otherwise the
      first out-of-range field (day, then week, then month) is reported; otherwise the
      fields come back with the status coerced to a boolean. */
  function ValidateAttendanceData(input: AttendanceInput): (r: Result<AttendanceData, ServiceError>)
    ensures !AllPresent(input) <==> r.Failure? && r.error.MissingFields?
    ensures !AllPresent(input) ==> r == Failure(MissingFields(MissingAttendanceFields(input)))
    ensures AllPresent(input) ==>
      && (r == Failure(DayOutOfRange) <==> !DayInRange(input.day.value))
      && (r == Failure(WeekOutOfRange) <==> DayInRange(input.day.value) && !WeekInRange(input.week.value))
      && (r == Failure(MonthOutOfRange) <==>
            DayInRange(input.day.value) && WeekInRange(input.week.value) && !MonthInRange(input.month.value))
    ensures r.Success? ==>
      && AllPresent(input)
      && r.value == AttendanceData(input.day.value, input.week.value, input.month.value, Truthy(input.status.value))
      && DayInRange(r.value.day) && WeekInRange(r.value.week) && MonthInRange(r.value.month)
    ensures AllPresent(input)
      && DayInRange(input.day.value) && WeekInRange(input.week.value) && MonthInRange(input.month.value)
      ==> r.Success?
  {
    var missing := MissingAttendanceFields(input);
    if missing != [] then Failure(MissingFields(missing))
    else if !DayInRange(input.day.value) then Failure(DayOutOfRange)
    else if !WeekInRange(input.week.value) then Failure(WeekOutOfRange)
    else if !MonthInRange(input.month.value) then Failure(MonthOutOfRange)
    else Success(AttendanceData(input.day.value, input.week.value, input.month.value, Truthy(input.status.value)))
  }

  // ---------------------------------------------------------------- invariants of the list

  predicate InRange(e: Entry) {
    DayInRange(e.day) && WeekInRange(e.week) && MonthInRange(e.month)
  }

  predicate AllInRange(s: seq<Entry>) {
    forall k :: 0 <= k < |s| ==> InRange(s[k])
  }

  /** No two records share a (day, week, month) key. */
  predicate UniqueKeys(s: seq<Entry>) {
    forall i, j :: 0 <= i < j < |s| ==> Key(s[i]) != Key(s[j])
  }

  // ---------------------------------------------------------------- duplicate detection

  /** The record at index `j` carries the key (day, week, month) and is not the excluded one. */
  predicate Blocks(s: seq<Entry>, j: int, day: int, week: int, month: int, excludeIndex: int)
    requires 0 <= j < |s|
  {
    j != excludeIndex && Key(s[j]) == (day, week, month)
  }

  function FirstBlocking(s: seq<Entry>, day: int, week: int, month: int, excludeIndex: int, from: nat)
    : (r: Option<nat>)
    requires from <= |s|
    ensures r.Some? ==>
      && from <= r.value < |s| && Blocks(s, r.value, day, week, month, excludeIndex)
      && forall k :: from <= k < r.value ==> !Blocks(s, k, day, week, month, excludeIndex)
    ensures r.None? ==> forall k :: from <= k < |s| ==> !Blocks(s, k, day, week, month, excludeIndex)
    decreases |s| - from
  {
    if from == |s| then None
    else if Blocks(s, from, day, week, month, excludeIndex) then Some(from)
    else FirstBlocking(s, day, week, month, excludeIndex, from + 1)
  }

  /** The first record, other than the one at `excludeIndex`, whose key is (day, week, month).
      An `excludeIndex` of -1 (the service's default) excludes nothing. */
  function CheckDuplicateAttendance(s: seq<Entry>, day: int, week: int, month: int, excludeIndex: int)
    : (r: Option<Entry>)
    ensures r.None? <==> forall j :: 0 <= j < |s| ==> !Blocks(s, j, day, week, month, excludeIndex)
    ensures r.Some? ==> exists j :: (0 <= j < |s| && Blocks(s, j, day, week, month, excludeIndex) && r.value == s[j]
      && forall k :: 0 <= k < j ==> !Blocks(s, k, day, week, month, excludeIndex))
    ensures excludeIndex < 0 ==> (r.Some? <==> exists j :: 0 <= j < |s| && Key(s[j]) == (day, week, month))
  {
    match FirstBlocking(s, day, week, month, excludeIndex, 0)
    case None =>
      assert forall j :: 0 <= j < |s| && excludeIndex < 0 ==> Key(s[j]) != (day, week, month) by {
        forall j | 0 <= j < |s| && excludeIndex < 0 ensures Key(s[j]) != (day, week, month) {
          assert !Blocks(s, j, day, week, month, excludeIndex);
        }
      }
      None
    case Some(j) => Some(s[j])
  }

  // ---------------------------------------------------------------- locating a record

  /** The index of the first record with the given id (`findIndex`), `None` for -1. */
  function IndexOfEntry(s: seq<Entry>, attendanceId: string): (r: Option<nat>)
    ensures r.Some? ==> (r.value < |s| && s[r.value].id == attendanceId
      && forall k :: 0 <= k < r.value ==> s[k].id != attendanceId)
    ensures r.None? <==> forall k :: 0 <= k < |s| ==> s[k].id != attendanceId
  {
    FirstIndex(s, (e: Entry) => e.id == attendanceId)
  }

  // ---------------------------------------------------------------- create

  function NewEntry(data: AttendanceData, id: string, now: int): Entry {
    Entry(id, data.day, data.week, data.month, data.status, now)
  }

  /** The attendance list after a create request, or why the request is refused: invalid
      data, or a record that already has the key. The new record goes last; the key and
      range invariants are kept. */
  function AppendAttendance(s: seq<Entry>, input: AttendanceInput, newId: string, now: int)
    : (r: Result<seq<Entry>, ServiceError>)
    ensures ValidateAttendanceData(input).Failure? ==> r == Failure(ValidateAttendanceData(input).error)
    ensures ValidateAttendanceData(input).Success? ==>
      var d := ValidateAttendanceData(input).value;
      && (r.Failure? <==> exists j :: 0 <= j < |s| && Key(s[j]) == (d.day, d.week, d.month))
      && (r.Failure? ==> r.error == DuplicateAttendance(d.day, d.week, d.month))
      && (r.Success? ==> r.value == s + [NewEntry(d, newId, now)])
    ensures r.Success? && UniqueKeys(s) ==> UniqueKeys(r.value)
    ensures r.Success? && AllInRange(s) ==> AllInRange(r.value)
  {
    var validated := ValidateAttendanceData(input);
    if validated.Failure? then Failure(validated.error)
    else
      var d := validated.value;
      if CheckDuplicateAttendance(s, d.day, d.week, d.month, -1).Some? then
        Failure(DuplicateAttendance(d.day, d.week, d.month))
      else
        var r := s + [NewEntry(d, newId, now)];
        assert forall j :: 0 <= j < |s| ==> Key(r[j]) != Key(r[|s|]) by {
          forall j | 0 <= j < |s| ensures Key(r[j]) != Key(r[|s|]) {
            assert !Blocks(s, j, d.day, d.week, d.month, -1);
          }
        }
        Success(r)
  }

  /** Creating valid data once succeeds: complete, in-range fields whose key no stored record
      has are appended. */
  lemma FirstCreateSucceeds(s: seq<Entry>, input: AttendanceInput, newId: string, now: int)
    requires AllPresent(input)
    requires DayInRange(input.day.value) && WeekInRange(input.week.value) && MonthInRange(input.month.value)
    requires forall j :: 0 <= j < |s| ==> Key(s[j]) != (input.day.value, input.week.value, input.month.value)
    ensures AppendAttendance(s, input, newId, now).Success?
  {
  }

  /** Creating the same key twice: the second request is refused as a duplicate. */
  lemma {:induction false} SecondCreateIsDuplicate(
    s: seq<Entry>, input: AttendanceInput, id1: string, id2: string, t1: int, t2: int)
    requires AppendAttendance(s, input, id1, t1).Success?
    ensures var d := ValidateAttendanceData(input).value;
      AppendAttendance(AppendAttendance(s, input, id1, t1).value, input, id2, t2)
        == Failure(DuplicateAttendance(d.day, d.week, d.month))
  {
    var s' := AppendAttendance(s, input, id1, t1).value;
    var d := ValidateAttendanceData(input).value;
    assert Key(s'[|s|]) == (d.day, d.week, d.month);
  }

  // ---------------------------------------------------------------- update

  predicate ChangesDate(p: AttendanceInput) {
    p.day.Some? || p.week.Some? || p.month.Some?
  }

  /** The record after `{...old, ...patch, status}`: the supplied fields win, a supplied
      status is coerced to a boolean, and the id and creation time are kept. */
  function Merge(e: Entry, p: AttendanceInput): (m: Entry)
    ensures m.id == e.id && m.createdAt == e.createdAt
    ensures p.day.Some? ==> m.day == p.day.value
    ensures p.week.Some? ==> m.week == p.week.value
    ensures p.month.Some? ==> m.month == p.month.value
    ensures p.status.Some? ==> m.status == Truthy(p.status.value)
    ensures p == AttendanceInput(None, None, None, None) ==> m == e
    ensures !ChangesDate(p) ==> Key(m) == Key(e)
  {
    e.(day := Supplied(p.day, e.day),
       week := Supplied(p.week, e.week),
       month := Supplied(p.month, e.month),
       status := if p.status.Some? then Truthy(p.status.value) else e.status)
  }

  /** Only the supplied date fields are range-checked, day first, then week, then month. */
  function PatchRangeError(p: AttendanceInput): (r: Option<ServiceError>)
    ensures r.None? <==>
      && (p.day.Some? ==> DayInRange(p.day.value))
      && (p.week.Some? ==> WeekInRange(p.week.value))
      && (p.month.Some? ==> MonthInRange(p.month.value))
    ensures r == Some(DayOutOfRange) <==> p.day.Some? && !DayInRange(p.day.value)
    ensures r == Some(WeekOutOfRange) <==>
      (p.day.Some? ==> DayInRange(p.day.value)) && p.week.Some? && !WeekInRange(p.week.value)
    ensures r == Some(MonthOutOfRange) <==>
      (p.day.Some? ==> DayInRange(p.day.value)) && (p.week.Some? ==> WeekInRange(p.week.value))
      && p.month.Some? && !MonthInRange(p.month.value)
  {
    if p.day.Some? && !DayInRange(p.day.value) then Some(DayOutOfRange)
    else if p.week.Some? && !WeekInRange(p.week.value) then Some(WeekOutOfRange)
    else if p.month.Some? && !MonthInRange(p.month.value) then Some(MonthOutOfRange)
    else None
  }

  /** The attendance list after an update request, or why it is refused. Only the record
      with the id changes; when a date field is supplied, the merged key must not belong to
      any other record; the key and range invariants are kept. */
  function ReplaceAttendance(s: seq<Entry>, attendanceId: string, p: AttendanceInput)
    : (r: Result<seq<Entry>, ServiceError>)
    ensures IndexOfEntry(s, attendanceId).None? ==> r == Failure(AttendanceNotFound(attendanceId))
    ensures IndexOfEntry(s, attendanceId).Some? ==>
      var i := IndexOfEntry(s, attendanceId).value;
      && (PatchRangeError(p).Some? ==> r == Failure(PatchRangeError(p).value))
      && (PatchRangeError(p).None? ==>
            && (r.Failure? <==>
                  ChangesDate(p) && exists j :: 0 <= j < |s| && j != i && Key(s[j]) == Key(Merge(s[i], p)))
            && (r.Failure? ==> r.error == DuplicateAttendance(Merge(s[i], p).day, Merge(s[i], p).week, Merge(s[i], p).month)))
      && (r.Success? ==> r.value == s[i := Merge(s[i], p)])
    ensures r.Success? && UniqueKeys(s) ==> UniqueKeys(r.value)
    ensures r.Success? && AllInRange(s) ==> AllInRange(r.value)
  {
    match IndexOfEntry(s, attendanceId)
    case None => Failure(AttendanceNotFound(attendanceId))
    case Some(i) =>
      var merged := Merge(s[i], p);
      if PatchRangeError(p).Some? then Failure(PatchRangeError(p).value)
      else if ChangesDate(p) && CheckDuplicateAttendance(s, merged.day, merged.week, merged.month, i).Some? then
        Failure(DuplicateAttendance(merged.day, merged.week, merged.month))
      else
        var r := s[i := merged];
        assert ChangesDate(p) ==> forall j :: 0 <= j < |s| && j != i ==> Key(s[j]) != Key(merged) by {
          if ChangesDate(p) {
            forall j | 0 <= j < |s| && j != i ensures Key(s[j]) != Key(merged) {
              assert !Blocks(s, j, merged.day, merged.week, merged.month, i);
            }
          }
        }
        assert !ChangesDate(p) ==> Key(merged) == Key(s[i]);
        Success(r)
  }

  /** Self-exclusion: on a list with unique keys, resupplying a record's own date succeeds. */
  lemma {:induction false} UpdateToOwnKeySucceeds(s: seq<Entry>, attendanceId: string, p: AttendanceInput)
    requires UniqueKeys(s) && AllInRange(s)
    requires IndexOfEntry(s, attendanceId).Some?
    requires var i := IndexOfEntry(s, attendanceId).value;
      p.day == Some(s[i].day) && p.week == Some(s[i].week) && p.month == Some(s[i].month)
    ensures ReplaceAttendance(s, attendanceId, p).Success?
  {
  }

  /** Moving a record onto the key of another record is refused as a duplicate. */
  lemma {:induction false} UpdateOntoOtherKeyFails(
    s: seq<Entry>, attendanceId: string, p: AttendanceInput, j: nat)
    requires IndexOfEntry(s, attendanceId).Some?
    requires j < |s| && j != IndexOfEntry(s, attendanceId).value
    requires p.day == Some(s[j].day) && p.week == Some(s[j].week) && p.month == Some(s[j].month)
    requires InRange(s[j])
    ensures ReplaceAttendance(s, attendanceId, p) == Failure(DuplicateAttendance(s[j].day, s[j].week, s[j].month))
  {
  }

  // ---------------------------------------------------------------- delete

  /** The attendance list after a delete request: the record with the id is spliced out. */
  function RemoveAttendance(s: seq<Entry>, attendanceId: string): (r: Result<seq<Entry>, ServiceError>)
    ensures r.Failure? <==> forall k :: 0 <= k < |s| ==> s[k].id != attendanceId
    ensures r.Failure? ==> r.error == AttendanceNotFound(attendanceId)
    ensures r.Success? ==> exists i :: (0 <= i < |s| && s[i].id == attendanceId
      && (forall k :: 0 <= k < i ==> s[k].id != attendanceId)
      && r.value == s[..i] + s[i + 1..])
    ensures r.Success? && UniqueKeys(s) ==> UniqueKeys(r.value)
    ensures r.Success? && AllInRange(s) ==> AllInRange(r.value)
  {
    match IndexOfEntry(s, attendanceId)
    case None => Failure(AttendanceNotFound(attendanceId))
    case Some(i) =>
      var r := RemoveAt(s, i);
      assert r == s[..i] + s[i + 1..];
      Success(r)
  }

  // ---------------------------------------------------------------- the operations on a student

  /** `createAttendance`: resolve the student first, then validate, check for a duplicate
      and push the new record. */
  method CreateAttendance(studentId: string, lookup: Student?, input: AttendanceInput, newId: string, now: int)
    returns (r: Result<Student, ServiceError>)
    modifies lookup
    ensures FindStudentById(studentId, lookup).Failure? ==>
      r == Failure(FindStudentById(studentId, lookup).error) && (lookup != null ==> unchanged(lookup))
    ensures FindStudentById(studentId, lookup).Success? ==>
      var after := AppendAttendance(old(lookup.attendance), input, newId, now);
      && (after.Failure? ==> r == Failure(after.error) && unchanged(lookup))
      && (after.Success? ==> r == Success(lookup) && lookup.attendance == after.value && OnlyAttendanceChanged(lookup))
  {
    var found := FindStudentById(studentId, lookup);
    if found.Failure? {
      return Failure(found.error);
    }
    var student := found.value;
    var validated := ValidateAttendanceData(input);
    if validated.Failure? {
      return Failure(validated.error);
    }
    var data := validated.value;
    var existing := CheckDuplicateAttendance(student.attendance, data.day, data.week, data.month, -1);
    if existing.Some? {
      return Failure(DuplicateAttendance(data.day, data.week, data.month));
    }
    student.attendance := student.attendance + [NewEntry(data, newId, now)];
    r := Success(student);
  }

  /** `updateAttendance`: locate the record, range-check the supplied date fields, re-run
      the duplicate check on the merged key excluding the record itself, then assign the
      merged record at its index. */
  method UpdateAttendance(studentId: string, lookup: Student?, attendanceId: string, p: AttendanceInput)
    returns (r: Result<Student, ServiceError>)
    modifies lookup
    ensures FindStudentById(studentId, lookup).Failure? ==>
      r == Failure(FindStudentById(studentId, lookup).error) && (lookup != null ==> unchanged(lookup))
    ensures FindStudentById(studentId, lookup).Success? ==>
      var after := ReplaceAttendance(old(lookup.attendance), attendanceId, p);
      && (after.Failure? ==> r == Failure(after.error) && unchanged(lookup))
      && (after.Success? ==> r == Success(lookup) && lookup.attendance == after.value && OnlyAttendanceChanged(lookup))
  {
    var found := FindStudentById(studentId, lookup);
    if found.Failure? {
      return Failure(found.error);
    }
    var student := found.value;
    var index := IndexOfEntry(student.attendance, attendanceId);
    if index.None? {
      return Failure(AttendanceNotFound(attendanceId));
    }
    var i := index.value;
    if p.day.Some? && !DayInRange(p.day.value) {
      return Failure(DayOutOfRange);
    }
    if p.week.Some? && !WeekInRange(p.week.value) {
      return Failure(WeekOutOfRange);
    }
    if p.month.Some? && !MonthInRange(p.month.value) {
      return Failure(MonthOutOfRange);
    }
    if ChangesDate(p) {
      var current := student.attendance[i];
      var day := Supplied(p.day, current.day);
      var week := Supplied(p.week, current.week);
      var month := Supplied(p.month, current.month);
      var existing := CheckDuplicateAttendance(student.attendance, day, week, month, i);
      if existing.Some? {
        return Failure(DuplicateAttendance(day, week, month));
      }
    }
    student.attendance := student.attendance[i := Merge(student.attendance[i], p)];
    r := Success(student);
  }

  /** `deleteAttendance`: locate the record and splice it out. */
  method DeleteAttendance(studentId: string, lookup: Student?, attendanceId: string)
    returns (r: Result<Student, ServiceError>)
    modifies lookup
    ensures FindStudentById(studentId, lookup).Failure? ==>
      r == Failure(FindStudentById(studentId, lookup).error) && (lookup != null ==> unchanged(lookup))
    ensures FindStudentById(studentId, lookup).Success? ==>
      var after := RemoveAttendance(old(lookup.attendance), attendanceId);
      && (after.Failure? ==> r == Failure(after.error) && unchanged(lookup))
      && (after.Success? ==> r == Success(lookup) && lookup.attendance == after.value && OnlyAttendanceChanged(lookup))
  {
    var found := FindStudentById(studentId, lookup);
    if found.Failure? {
      return Failure(found.error);
    }
    var student := found.value;
    var index := IndexOfEntry(student.attendance, attendanceId);
    if index.None? {
      return Failure(AttendanceNotFound(attendanceId));
    }
    student.attendance := RemoveAt(student.attendance, index.value);
    r := Success(student);
  }
}
