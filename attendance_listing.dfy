/** Reading attendance: the filtered, most-recent-first listing and the lookup of one record.
    Both work on a copy of the student's list and never change it. */
module AttendanceListing {
  import opened Outcomes
  import opened Lists
  import opened StudentModel
  import opened AttendanceService

  /** The query filters, already parsed. For `month` and `week`, `None` is a filter that is
      absent or empty. For `status`, `None` is an absent filter only: an empty `status` is
      `Some("")`, which keeps the absent records. `status` keeps its text, since only the
      exact string "true" means present. */
  datatype ListFilters = ListFilters(month: Option<int>, week: Option<int>, status: Option<string>)

  /** A record passes every supplied filter. */
  predicate MatchesFilters(e: Entry, f: ListFilters) {
    && (f.month.Some? ==> e.month == f.month.value)
    && (f.week.Some? ==> e.week == f.week.value)
    && (f.status.Some? ==> e.status == (f.status.value == "true"))
  }

  /** The three filters, applied one after the other as the service does. */
  function ApplyFilters(s: seq<Entry>, f: ListFilters): (r: seq<Entry>)
    ensures forall e :: multiset(r)[e] == if MatchesFilters(e, f) then multiset(s)[e] else 0
  {
    var byMonth :=
      if f.month.Some? then
        var p := (e: Entry) => e.month == f.month.value;
        FilterCounts(s, p);
        Filter(s, p)
      else s;
    var byWeek :=
      if f.week.Some? then
        var p := (e: Entry) => e.week == f.week.value;
        FilterCounts(byMonth, p);
        Filter(byMonth, p)
      else byMonth;
    if f.status.Some? then
      var p := (e: Entry) => e.status == (f.status.value == "true");
      FilterCounts(byWeek, p);
      Filter(byWeek, p)
    else byWeek
  }

  /** Most recent first: creation times never increase along the list. */
  predicate NewestFirst(s: seq<Entry>) {
    forall i, j :: 0 <= i < j < |s| ==> s[i].createdAt >= s[j].createdAt
  }

  /** No record of the list was created after `t`. */
  predicate NoneNewerThan(s: seq<Entry>, t: int) {
    forall k :: 0 <= k < |s| ==> s[k].createdAt <= t
  }

  /** Having no record newer than `t` depends only on which records the list holds. */
  lemma NoneNewerThanPermutation(a: seq<Entry>, b: seq<Entry>, t: int)
    requires multiset(a) == multiset(b) && NoneNewerThan(b, t)
    ensures NoneNewerThan(a, t)
  {
    forall k | 0 <= k < |a| ensures a[k].createdAt <= t {
      assert a[k] in multiset(b);
      var j :| 0 <= j < |b| && b[j] == a[k];
    }
  }

  /** A record no older than everything in a newest-first list may go in front of it. */
  lemma PrependNewest(x: Entry, s: seq<Entry>)
    requires NewestFirst(s) && NoneNewerThan(s, x.createdAt)
    ensures NewestFirst([x] + s)
  {
  }

  /** Put `e` into a newest-first list, ahead of every record that is not newer than it. */
  function InsertByRecency(e: Entry, s: seq<Entry>): (r: seq<Entry>)
    requires NewestFirst(s)
    ensures NewestFirst(r)
    ensures multiset(r) == multiset(s) + multiset{e}
  {
    if s == [] || s[0].createdAt <= e.createdAt then
      PrependNewest(e, s);
      [e] + s
    else
      HeadIsNewest(s);
      var rest := InsertByRecency(e, s[1..]);
      assert NoneNewerThan(s[1..] + [e], s[0].createdAt);
      NoneNewerThanPermutation(rest, s[1..] + [e], s[0].createdAt);
      PrependNewest(s[0], rest);
      assert multiset(s) == multiset{s[0]} + multiset(s[1..]) by {
        assert s == [s[0]] + s[1..];
      }
      [s[0]] + rest
  }

  /** The head of a non-empty newest-first list is its newest record, and the tail is
      newest-first. */
  lemma HeadIsNewest(s: seq<Entry>)
    requires s != [] && NewestFirst(s)
    ensures NewestFirst(s[1..]) && NoneNewerThan(s[1..], s[0].createdAt)
  {
  }

  /** The stable sort by descending creation time (`sort((a, b) => b.createdAt - a.createdAt)`):
      a permutation of its input, newest first, and records with equal times keep their order. */
  function SortByRecency(s: seq<Entry>): (r: seq<Entry>)
    ensures NewestFirst(r)
    ensures multiset(r) == multiset(s)
  {
    if s == [] then []
    else
      assert s == [s[0]] + s[1..];
      InsertByRecency(s[0], SortByRecency(s[1..]))
  }

  /** The records created at time `t`, in list order. */
  function CreatedAt(s: seq<Entry>, t: int): seq<Entry> {
    if s == [] then []
    else (if s[0].createdAt == t then [s[0]] else []) + CreatedAt(s[1..], t)
  }

  /** Inserting `e` puts it ahead of every record with its creation time. */
  lemma {:induction false} InsertKeepsTies(e: Entry, s: seq<Entry>, t: int)
    requires NewestFirst(s)
    ensures CreatedAt(InsertByRecency(e, s), t) == (if e.createdAt == t then [e] else []) + CreatedAt(s, t)
  {
    if s == [] || s[0].createdAt <= e.createdAt {
      assert InsertByRecency(e, s) == [e] + s;
      assert ([e] + s)[1..] == s;
    } else {
      HeadIsNewest(s);
      var rest := InsertByRecency(e, s[1..]);
      InsertKeepsTies(e, s[1..], t);
      assert InsertByRecency(e, s) == [s[0]] + rest;
      assert ([s[0]] + rest)[1..] == rest;
      var head := if s[0].createdAt == t then [s[0]] else [];
      assert CreatedAt([s[0]] + rest, t) == head + CreatedAt(rest, t);
      assert CreatedAt(s, t) == head + CreatedAt(s[1..], t);
      if e.createdAt == t {
        assert head == [];
      } else {
        assert CreatedAt(rest, t) == CreatedAt(s[1..], t);
      }
    }
  }

  /** The sort is stable: records created at the same time keep their stored order. */
  lemma {:induction false} SortKeepsTies(s: seq<Entry>, t: int)
    ensures CreatedAt(SortByRecency(s), t) == CreatedAt(s, t)
  {
    if s != [] {
      SortKeepsTies(s[1..], t);
      InsertKeepsTies(s[0], SortByRecency(s[1..]), t);
    }
  }

  /** `getAllAttendance`: resolve the student, keep the records passing every supplied filter,
      and list them newest first. Exactly the matching records come back, each as often as it
      is stored. */
  function GetAllAttendance(studentId: string, lookup: Student?, f: ListFilters)
    : (r: Result<seq<Entry>, ServiceError>)
    reads lookup
    ensures FindStudentById(studentId, lookup).Failure? ==> r == Failure(FindStudentById(studentId, lookup).error)
    ensures FindStudentById(studentId, lookup).Success? ==> r.Success?
    ensures r.Success? ==>
      && lookup != null
      && (forall e :: e in r.value ==> e in lookup.attendance && MatchesFilters(e, f))
      && (forall e :: e in lookup.attendance && MatchesFilters(e, f) ==> e in r.value)
      && (forall e :: multiset(r.value)[e] == if MatchesFilters(e, f) then multiset(lookup.attendance)[e] else 0)
      && NewestFirst(r.value)
      && forall t :: CreatedAt(r.value, t) == CreatedAt(ApplyFilters(lookup.attendance, f), t)
  {
    match FindStudentById(studentId, lookup)
    case Failure(err) => Failure(err)
    case Success(student) =>
      var listed := SortByRecency(ApplyFilters(student.attendance, f));
      assert forall e :: e in listed <==> multiset(listed)[e] > 0;
      assert forall e :: e in student.attendance <==> multiset(student.attendance)[e] > 0;
      forall t ensures CreatedAt(listed, t) == CreatedAt(ApplyFilters(student.attendance, f), t) {
        SortKeepsTies(ApplyFilters(student.attendance, f), t);
      }
      Success(listed)
  }

  /** `getAttendanceById`: the first record of the student with the given id. */
  function GetAttendanceById(studentId: string, lookup: Student?, attendanceId: string)
    : (r: Result<Entry, ServiceError>)
    reads lookup
    ensures FindStudentById(studentId, lookup).Failure? ==> r == Failure(FindStudentById(studentId, lookup).error)
    ensures FindStudentById(studentId, lookup).Success? ==>
      && (r.Success? <==> exists k :: 0 <= k < |lookup.attendance| && lookup.attendance[k].id == attendanceId)
      && (r.Failure? ==> r.error == AttendanceNotFound(attendanceId))
      && (r.Success? ==> r.value.id == attendanceId && r.value in lookup.attendance)
  {
    match FindStudentById(studentId, lookup)
    case Failure(err) => Failure(err)
    case Success(student) =>
      match IndexOfEntry(student.attendance, attendanceId)
      case None => Failure(AttendanceNotFound(attendanceId))
      case Some(i) => Success(student.attendance[i])
  }
}
