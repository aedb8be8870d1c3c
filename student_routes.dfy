/** The decision logic of the student handlers: page arithmetic, validation of the contact
    fields, conflict reporting against the other stored students, and the edits of the
    embedded ratings and badge lists. The store's queries become parameters: `lookup` is
    what find-by-id returns (null when there is no such student) and `others` are the
    other stored students' contact fields. */
module StudentRoutes {
  import opened Outcomes
  import opened Lists
  import opened StudentModel
  import opened EmailPattern

  /** The distinguishable failures of the student handlers. */
  datatype RouteError =
    | StudentNotFound(studentId: string)
    | NameRequired
    | ValidEmailRequired
    | PhoneRequired
    | AlreadyUsed(fields: seq<string>)
    | MissingFields(fields: seq<string>)
    | RatingNotFound(ratingId: string)

  // ---------------------------------------------------------------- pagination

  /** `parseInt(x) || d` followed by the lower-bound fix-ups of the listing handlers.
      `None` is a query value that does not parse (or is absent). */
  method NormalizePagination(pageParam: Option<int>, limitParam: Option<int>)
    returns (page: int, limit: int, skip: int)
    ensures page >= 1 && limit >= 1 && skip == (page - 1) * limit && skip >= 0
    ensures pageParam.Some? && pageParam.value >= 1 ==> page == pageParam.value
    ensures !(pageParam.Some? && pageParam.value >= 1) ==> page == 1
    ensures limitParam.Some? && limitParam.value >= 1 ==> limit == limitParam.value
    ensures limitParam.None? || limitParam.value == 0 ==> limit == 20
    ensures limitParam.Some? && limitParam.value < 0 ==> limit == 10
  {
    page := if pageParam.Some? && pageParam.value != 0 then pageParam.value else 1;
    limit := if limitParam.Some? && limitParam.value != 0 then limitParam.value else 20;
    if page < 1 {
      page := 1;
    }
    if limit < 1 {
      limit := 10;
    }
    skip := (page - 1) * limit;
  }

  /** How many students the store returns for one page: `skip(skip).limit(limit)` over
      `total` matching students. */
  function PageLength(total: nat, skip: nat, limit: nat): (n: nat)
    ensures n <= limit
    ensures skip < total ==> n == if total - skip < limit then total - skip else limit
    ensures skip + n <= total || n == 0
  {
    if skip >= total then 0
    else if total - skip < limit then total - skip
    else limit
  }

  /** The page the store returns: the students from position `skip`, at most `limit` of them. */
  function PageOf<T>(all: seq<T>, skip: nat, limit: nat): (r: seq<T>)
    ensures |r| == PageLength(|all|, skip, limit)
    ensures forall k :: 0 <= k < |r| ==> r[k] == all[skip + k]
  {
    if skip >= |all| then []
    else if |all| - skip < limit then all[skip..]
    else all[skip..skip + limit]
  }

  datatype PageInfo = PageInfo(
    total: nat, page: int, limit: int, totalPages: nat, hasNextPage: bool, hasPrevPage: bool)

  /** `Math.ceil(n / d)` on non-negative integers. */
  function CeilDiv(n: nat, d: nat): (q: nat)
    requires d >= 1
    ensures (q - 1) * d < n <= q * d
  {
    (n + d - 1) / d
  }

  /** The pagination block of a listing response. */
  function PaginationInfo(total: nat, page: int, limit: int, skip: int, returned: nat): (m: PageInfo)
    requires limit >= 1
    ensures m.total == total && m.page == page && m.limit == limit
    ensures (m.totalPages - 1) * limit < total <= m.totalPages * limit
    ensures m.hasNextPage <==> skip + returned < total
    ensures m.hasPrevPage <==> page > 1
  {
    PageInfo(total, page, limit, CeilDiv(total, limit), skip + returned < total, page > 1)
  }

  lemma MulMonotone(a: int, b: int, c: nat)
    requires a <= b
    ensures a * c <= b * c
  {
  }

  /** With a normalised page and the page the store returns, "has a next page" means
      exactly "is not the last page". */
  lemma NextPageIffBeforeLast<T>(all: seq<T>, page: int, limit: int)
    requires page >= 1 && limit >= 1
    ensures var skip := (page - 1) * limit;
      var m := PaginationInfo(|all|, page, limit, skip, |PageOf(all, skip, limit)|);
      m.hasNextPage <==> page < m.totalPages
  {
    var total := |all|;
    var skip := (page - 1) * limit;
    var t := CeilDiv(total, limit);
    MulMonotone(0, page - 1, limit);
    if page < t {
      MulMonotone(page, t - 1, limit);
      assert page * limit < total;
      assert skip + limit == page * limit;
    } else {
      MulMonotone(t, page, limit);
      assert total <= page * limit;
      assert skip + limit == page * limit;
    }
  }

  // ---------------------------------------------------------------- create

  /** The contact fields of a request body; `None` is a field the body does not carry. */
  datatype StudentBody = StudentBody(name: Option<string>, email: Option<string>, phone: Option<string>)

  /** A body value that is neither absent nor the empty string (JavaScript truthiness). */
  predicate Provided(v: Option<string>) {
    v.Some? && v.value != ""
  }

  /** The checks of a create request, name, then email, then phone; the first failure wins. */
  function ValidateNewStudent(b: StudentBody): (r: Result<Contact, RouteError>)
    ensures r.Success? <==> Provided(b.name) && b.email.Some? && ValidEmail(b.email.value) && Provided(b.phone)
    ensures !Provided(b.name) ==> r == Failure(NameRequired)
    ensures Provided(b.name) && !(b.email.Some? && ValidEmail(b.email.value)) ==> r == Failure(ValidEmailRequired)
    ensures Provided(b.name) && b.email.Some? && ValidEmail(b.email.value) && !Provided(b.phone) ==>
      r == Failure(PhoneRequired)
    ensures r.Success? ==> r.value == Contact(b.name.value, b.email.value, b.phone.value)
  {
    if !Provided(b.name) then Failure(NameRequired)
    else if !Provided(b.email) || !ValidEmail(b.email.value) then Failure(ValidEmailRequired)
    else if !Provided(b.phone) then Failure(PhoneRequired)
    else Success(Contact(b.name.value, b.email.value, b.phone.value))
  }

  /** A stored student the create query `{$or: [{email}, {phone}]}` finds. */
  predicate Clashes(other: Contact, email: string, phone: string) {
    other.email == email || other.phone == phone
  }

  /** The rank of a field in the order conflicts are reported. */
  function ConflictRank(field: string): int {
    if field == "email" then 0 else 1
  }

  /** The conflict report: "email" when the found student has that email, then "phone" when
      it has that phone. */
  function UsedFields(found: Contact, email: Option<string>, phone: Option<string>): (fields: seq<string>)
    ensures "email" in fields <==> email.Some? && found.email == email.value
    ensures "phone" in fields <==> phone.Some? && found.phone == phone.value
    ensures forall f :: f in fields ==> f == "email" || f == "phone"
    ensures forall i, j :: 0 <= i < j < |fields| ==> ConflictRank(fields[i]) < ConflictRank(fields[j])
  {
    (if email.Some? && found.email == email.value then ["email"] else [])
    + (if phone.Some? && found.phone == phone.value then ["phone"] else [])
  }

  /** A create request against the stored students: validation first, then the conflict
      query. The store may return any matching student; the model takes the first. */
  function AdmitStudent(b: StudentBody, others: seq<Contact>): (r: Result<Contact, RouteError>)
    ensures ValidateNewStudent(b).Failure? ==> r == Failure(ValidateNewStudent(b).error)
    ensures ValidateNewStudent(b).Success? ==>
      var c := ValidateNewStudent(b).value;
      && (r.Success? <==> forall k :: 0 <= k < |others| ==> !Clashes(others[k], c.email, c.phone))
      && (r.Success? ==> r.value == c)
      && (r.Failure? ==>
            && r.error.AlreadyUsed? && r.error.fields != []
            && exists k :: 0 <= k < |others| && r.error.fields == UsedFields(others[k], b.email, b.phone))
  {
    match ValidateNewStudent(b)
    case Failure(err) => Failure(err)
    case Success(c) =>
      match FirstIndex(others, (o: Contact) => Clashes(o, c.email, c.phone))
      case None => Success(c)
      case Some(k) => Failure(AlreadyUsed(UsedFields(others[k], b.email, b.phone)))
  }

  /** The create handler: admit the request, then build the new student with the generated
      code and empty lists. */
  method CreateStudent(b: StudentBody, others: seq<Contact>, studentCode: string)
    returns (r: Result<Student, RouteError>)
    ensures AdmitStudent(b, others).Failure? ==> r == Failure(AdmitStudent(b, others).error)
    ensures AdmitStudent(b, others).Success? ==>
      && r.Success? && fresh(r.value)
      && ContactOf(r.value) == AdmitStudent(b, others).value
      && r.value.studentCode == studentCode
      && r.value.attendance == [] && r.value.ratings == [] && r.value.badges == []
  {
    var admitted := AdmitStudent(b, others);
    if admitted.Failure? {
      return Failure(admitted.error);
    }
    var c := admitted.value;
    var student := new Student(c.name, c.email, c.phone, studentCode);
    r := Success(student);
  }

  // ---------------------------------------------------------------- update

  /** The contact fields after `{...current, ...body}`. */
  function RevisedContact(current: Contact, b: StudentBody): (c: Contact)
    ensures b.name.Some? ==> c.name == b.name.value
    ensures b.email.Some? ==> c.email == b.email.value
    ensures b.phone.Some? ==> c.phone == b.phone.value
    ensures c.name != current.name <==> b.name.Some? && b.name.value != current.name
    ensures c.email != current.email <==> EmailChanges(current, b)
    ensures c.phone != current.phone <==> PhoneChanges(current, b)
    ensures b == StudentBody(None, None, None) ==> c == current
    ensures b.name.Some? && b.email.Some? && b.phone.Some? ==> c == Contact(b.name.value, b.email.value, b.phone.value)
  {
    Contact(Supplied(b.name, current.name), Supplied(b.email, current.email), Supplied(b.phone, current.phone))
  }

  /** Applying the same body twice is applying it once, and two bodies in a row are one body
      carrying the later value of each field. */
  lemma RevisedContactLaws(c: Contact, b1: StudentBody, b2: StudentBody)
    ensures RevisedContact(RevisedContact(c, b1), b1) == RevisedContact(c, b1)
    ensures RevisedContact(RevisedContact(c, b1), b2) == RevisedContact(c, LaterContact(b2, b1))
  {
  }

  /** One body carrying `later`'s fields and, where `later` lacks one, `earlier`'s. */
  function LaterContact(later: StudentBody, earlier: StudentBody): StudentBody {
    StudentBody(
      if later.name.Some? then later.name else earlier.name,
      if later.email.Some? then later.email else earlier.email,
      if later.phone.Some? then later.phone else earlier.phone)
  }

  predicate EmailChanges(current: Contact, b: StudentBody) {
    b.email.Some? && b.email.value != current.email
  }

  predicate PhoneChanges(current: Contact, b: StudentBody) {
    b.phone.Some? && b.phone.value != current.phone
  }

  /** A stored student the update query finds: only a field that is supplied and differs
      from the current value takes part in it. */
  predicate ClashesOnUpdate(other: Contact, current: Contact, b: StudentBody) {
    || (EmailChanges(current, b) && other.email == b.email.value)
    || (PhoneChanges(current, b) && other.phone == b.phone.value)
  }

  /** An update request against the other stored students: the resulting email is
      validated, then a conflict query runs over the changed fields only. */
  function ReviseStudent(current: Contact, b: StudentBody, others: seq<Contact>): (r: Result<Contact, RouteError>)
    ensures r == Failure(ValidEmailRequired) <==> !ValidEmail(RevisedContact(current, b).email)
    ensures ValidEmail(RevisedContact(current, b).email) ==>
      (r.Success? <==> forall k :: 0 <= k < |others| ==> !ClashesOnUpdate(others[k], current, b))
    ensures r.Success? ==> r.value == RevisedContact(current, b)
    ensures r.Failure? && r.error != ValidEmailRequired ==>
      r.error.AlreadyUsed? && r.error.fields != []
      && exists k :: 0 <= k < |others| && ClashesOnUpdate(others[k], current, b)
          && r.error.fields == UsedFields(others[k], b.email, b.phone)
  {
    var revised := RevisedContact(current, b);
    if !ValidEmail(revised.email) then Failure(ValidEmailRequired)
    else if !EmailChanges(current, b) && !PhoneChanges(current, b) then Success(revised)
    else
      match FirstIndex(others, (o: Contact) => ClashesOnUpdate(o, current, b))
      case None => Success(revised)
      case Some(k) => Failure(AlreadyUsed(UsedFields(others[k], b.email, b.phone)))
  }

  /** Resubmitting the current values changes nothing and never meets a conflict, provided
      the stored email is itself valid. */
  lemma ResubmitIsNoOp(current: Contact, others: seq<Contact>)
    requires ValidEmail(current.email)
    ensures ReviseStudent(current, StudentBody(Some(current.name), Some(current.email), Some(current.phone)), others)
      == Success(current)
    ensures ReviseStudent(current, StudentBody(None, None, None), others) == Success(current)
  {
  }

  /** A body that changes only the name can fail only on a stored email that is not valid. */
  lemma RenameNeverConflicts(current: Contact, name: string, others: seq<Contact>)
    ensures var r := ReviseStudent(current, StudentBody(Some(name), None, None), others);
      r.Success? || r == Failure(ValidEmailRequired)
  {
  }

  /** The update handler: resolve the student, decide the request, and on success assign the
      three contact fields. */
  method UpdateStudent(studentId: string, lookup: Student?, b: StudentBody, others: seq<Contact>)
    returns (r: Result<Student, RouteError>)
    modifies lookup
    ensures lookup == null ==> r == Failure(StudentNotFound(studentId))
    ensures lookup != null ==>
      var after := ReviseStudent(old(ContactOf(lookup)), b, others);
      && (after.Failure? ==> r == Failure(after.error) && unchanged(lookup))
      && (after.Success? ==> r == Success(lookup) && ContactOf(lookup) == after.value && OnlyContactChanged(lookup))
  {
    if lookup == null {
      return Failure(StudentNotFound(studentId));
    }
    var student := lookup;
    var after := ReviseStudent(ContactOf(student), b, others);
    if after.Failure? {
      return Failure(after.error);
    }
    student.name := after.value.name;
    student.email := after.value.email;
    student.phone := after.value.phone;
    r := Success(student);
  }

  // ---------------------------------------------------------------- ratings

  /** The rating fields of a request body; `None` is a field the body does not carry. */
  datatype RatingBody = RatingBody(
    week: Option<int>, day: Option<int>,
    assignments: Option<int>, participation: Option<int>, performance: Option<int>)

  /** The rating fields of a request body, declared in the order they are checked. */
  datatype RatingField = Week | Day | Assignments | Participation | Performance

  /** The field's name as the error message spells it. */
  function FieldName(f: RatingField): string {
    match f
    case Week => "week"
    case Day => "day"
    case Assignments => "assignments"
    case Participation => "participation"
    case Performance => "performance"
  }

  /** The position of a field in the order the checks run. */
  function RatingRank(f: RatingField): nat {
    match f
    case Week => 0
    case Day => 1
    case Assignments => 2
    case Participation => 3
    case Performance => 4
  }

  predicate RatingFieldMissing(b: RatingBody, f: RatingField) {
    match f
    case Week => b.week.None?
    case Day => b.day.None?
    case Assignments => b.assignments.None?
    case Participation => b.participation.None?
    case Performance => b.performance.None?
  }

  predicate RatingComplete(b: RatingBody) {
    b.week.Some? && b.day.Some? && b.assignments.Some? && b.participation.Some? && b.performance.Some?
  }

  /** The absent rating fields, each once, in the order week, day, assignments,
      participation, performance. */
  function MissingRatingFields(b: RatingBody): (fields: seq<RatingField>)
    ensures forall f :: f in fields <==> RatingFieldMissing(b, f)
    ensures forall i, j :: 0 <= i < j < |fields| ==> RatingRank(fields[i]) < RatingRank(fields[j])
    ensures fields == [] <==> RatingComplete(b)
  {
    (if b.week.None? then [Week] else [])
    + (if b.day.None? then [Day] else [])
    + (if b.assignments.None? then [Assignments] else [])
    + (if b.participation.None? then [Participation] else [])
    + (if b.performance.None? then [Performance] else [])
  }

  /** The error text's list of names, in the same order. */
  function FieldNames(fields: seq<RatingField>): (names: seq<string>)
    ensures |names| == |fields| && forall k :: 0 <= k < |fields| ==> names[k] == FieldName(fields[k])
  {
    if fields == [] then [] else [FieldName(fields[0])] + FieldNames(fields[1..])
  }

  /** The ratings list after an add request; `newId` and `now` are the id and date the store
      assigns to the new rating. */
  function AppendRating(s: seq<Rating>, b: RatingBody, newId: string, now: int): (r: Result<seq<Rating>, RouteError>)
    ensures r.Failure? <==> !RatingComplete(b)
    ensures r.Failure? ==> r.error == MissingFields(FieldNames(MissingRatingFields(b)))
    ensures r.Success? ==>
      && |r.value| == |s| + 1
      && r.value[..|s|] == s
      && r.value[|s|] == Rating(newId, b.week.value, b.day.value, b.assignments.value,
                                b.participation.value, b.performance.value, now)
  {
    var missing := MissingRatingFields(b);
    if missing != [] then Failure(MissingFields(FieldNames(missing)))
    else
      Success(s + [Rating(newId, b.week.value, b.day.value, b.assignments.value,
                          b.participation.value, b.performance.value, now)])
  }

  /** The index of the first rating with the given id (`findIndex`). */
  function IndexOfRating(s: seq<Rating>, ratingId: string): (r: Option<nat>)
    ensures r.None? <==> forall k :: 0 <= k < |s| ==> s[k].id != ratingId
    ensures r.Some? ==>
      && r.value < |s| && s[r.value].id == ratingId
      && forall k :: 0 <= k < r.value ==> s[k].id != ratingId
  {
    FirstIndex(s, (x: Rating) => x.id == ratingId)
  }

  /** A rating's score for one field. */
  function Score(r: Rating, f: RatingField): int {
    match f
    case Week => r.week
    case Day => r.day
    case Assignments => r.assignments
    case Participation => r.participation
    case Performance => r.performance
  }

  /** A body's value for one field, `None` when it does not carry it. */
  function BodyScore(b: RatingBody, f: RatingField): Option<int> {
    match f
    case Week => b.week
    case Day => b.day
    case Assignments => b.assignments
    case Participation => b.participation
    case Performance => b.performance
  }

  /** `{...old, ...body}` over the rating fields: each field the body carries overrides the
      old value; the id and the date stay. */
  function MergeRating(prev: Rating, b: RatingBody): (m: Rating)
    ensures m.id == prev.id && m.date == prev.date
    ensures forall f :: BodyScore(b, f).Some? ==> Score(m, f) == BodyScore(b, f).value
    ensures forall f :: BodyScore(b, f).None? ==> Score(m, f) == Score(prev, f)
    ensures b == RatingBody(None, None, None, None, None) ==> m == prev
    ensures RatingComplete(b) ==>
      m == Rating(prev.id, b.week.value, b.day.value, b.assignments.value,
                  b.participation.value, b.performance.value, prev.date)
  {
    Rating(
      prev.id,
      Supplied(b.week, prev.week),
      Supplied(b.day, prev.day),
      Supplied(b.assignments, prev.assignments),
      Supplied(b.participation, prev.participation),
      Supplied(b.performance, prev.performance),
      prev.date)
  }

  /** One body carrying `later`'s fields and, where `later` lacks one, `earlier`'s. */
  function LaterRating(later: RatingBody, earlier: RatingBody): RatingBody {
    RatingBody(
      if later.week.Some? then later.week else earlier.week,
      if later.day.Some? then later.day else earlier.day,
      if later.assignments.Some? then later.assignments else earlier.assignments,
      if later.participation.Some? then later.participation else earlier.participation,
      if later.performance.Some? then later.performance else earlier.performance)
  }

  /** Applying the same body twice is applying it once, and two updates in a row are one
      update carrying the later value of each field. */
  lemma MergeRatingLaws(x: Rating, b1: RatingBody, b2: RatingBody)
    ensures MergeRating(MergeRating(x, b1), b1) == MergeRating(x, b1)
    ensures MergeRating(MergeRating(x, b1), b2) == MergeRating(x, LaterRating(b2, b1))
  {
  }

  /** The ratings list after an update request. */
  function ReviseRating(s: seq<Rating>, ratingId: string, b: RatingBody): (r: Result<seq<Rating>, RouteError>)
    ensures r.Failure? <==> forall k :: 0 <= k < |s| ==> s[k].id != ratingId
    ensures r.Failure? ==> r.error == RatingNotFound(ratingId)
    ensures r.Success? ==> exists i :: (0 <= i < |s| && s[i].id == ratingId
      && (forall k :: 0 <= k < i ==> s[k].id != ratingId)
      && r.value == s[i := MergeRating(s[i], b)])
  {
    match IndexOfRating(s, ratingId)
    case None => Failure(RatingNotFound(ratingId))
    case Some(i) => Success(s[i := MergeRating(s[i], b)])
  }

  /** An update keeps every rating id, so the updated rating is found again at its place. */
  lemma ReviseKeepsIds(s: seq<Rating>, ratingId: string, b: RatingBody)
    requires ReviseRating(s, ratingId, b).Success?
    ensures var t := ReviseRating(s, ratingId, b).value;
      |t| == |s| && (forall k :: 0 <= k < |s| ==> t[k].id == s[k].id)
      && IndexOfRating(t, ratingId) == IndexOfRating(s, ratingId)
  {
  }

  /** The ratings list after a delete request: the rating with the id is spliced out. */
  function DropRating(s: seq<Rating>, ratingId: string): (r: Result<seq<Rating>, RouteError>)
    ensures r.Failure? <==> forall k :: 0 <= k < |s| ==> s[k].id != ratingId
    ensures r.Failure? ==> r.error == RatingNotFound(ratingId)
    ensures r.Success? ==> exists i :: (0 <= i < |s| && s[i].id == ratingId
      && (forall k :: 0 <= k < i ==> s[k].id != ratingId)
      && r.value == s[..i] + s[i + 1..])
  {
    match IndexOfRating(s, ratingId)
    case None => Failure(RatingNotFound(ratingId))
    case Some(i) =>
      var r := RemoveAt(s, i);
      assert r == s[..i] + s[i + 1..];
      Success(r)
  }

  /** Adding a rating and then deleting it by its fresh id gives the list back. */
  lemma AddThenDeleteRating(s: seq<Rating>, b: RatingBody, newId: string, now: int)
    requires RatingComplete(b)
    requires forall k :: 0 <= k < |s| ==> s[k].id != newId
    ensures DropRating(AppendRating(s, b, newId, now).value, newId) == Success(s)
  {
    var t := AppendRating(s, b, newId, now).value;
    assert forall k :: 0 <= k < |s| ==> t[k] == s[k];
    assert IndexOfRating(t, newId) == Some(|s|);
    assert t[..|s|] + t[|s| + 1..] == s;
  }

  /** The add-rating handler. */
  method AddRating(studentId: string, lookup: Student?, b: RatingBody, newId: string, now: int)
    returns (r: Result<Student, RouteError>)
    modifies lookup
    ensures lookup == null ==> r == Failure(StudentNotFound(studentId))
    ensures lookup != null ==>
      var after := AppendRating(old(lookup.ratings), b, newId, now);
      && (after.Failure? ==> r == Failure(after.error) && unchanged(lookup))
      && (after.Success? ==> r == Success(lookup) && lookup.ratings == after.value && OnlyRatingsChanged(lookup))
  {
    if lookup == null {
      return Failure(StudentNotFound(studentId));
    }
    var student := lookup;
    var missing := MissingRatingFields(b);
    if missing != [] {
      return Failure(MissingFields(FieldNames(missing)));
    }
    student.ratings := student.ratings + [Rating(newId, b.week.value, b.day.value, b.assignments.value,
                                                 b.participation.value, b.performance.value, now)];
    r := Success(student);
  }

  /** The update-rating handler: locate the rating and assign the merged one at its index. */
  method UpdateRating(studentId: string, lookup: Student?, ratingId: string, b: RatingBody)
    returns (r: Result<Student, RouteError>)
    modifies lookup
    ensures lookup == null ==> r == Failure(StudentNotFound(studentId))
    ensures lookup != null ==>
      var after := ReviseRating(old(lookup.ratings), ratingId, b);
      && (after.Failure? ==> r == Failure(after.error) && unchanged(lookup))
      && (after.Success? ==> r == Success(lookup) && lookup.ratings == after.value && OnlyRatingsChanged(lookup))
  {
    if lookup == null {
      return Failure(StudentNotFound(studentId));
    }
    var student := lookup;
    var index := IndexOfRating(student.ratings, ratingId);
    if index.None? {
      return Failure(RatingNotFound(ratingId));
    }
    var i := index.value;
    student.ratings := student.ratings[i := MergeRating(student.ratings[i], b)];
    r := Success(student);
  }

  /** The delete-rating handler: locate the rating and splice it out. */
  method DeleteRating(studentId: string, lookup: Student?, ratingId: string)
    returns (r: Result<Student, RouteError>)
    modifies lookup
    ensures lookup == null ==> r == Failure(StudentNotFound(studentId))
    ensures lookup != null ==>
      var after := DropRating(old(lookup.ratings), ratingId);
      && (after.Failure? ==> r == Failure(after.error) && unchanged(lookup))
      && (after.Success? ==> r == Success(lookup) && lookup.ratings == after.value && OnlyRatingsChanged(lookup))
  {
    if lookup == null {
      return Failure(StudentNotFound(studentId));
    }
    var student := lookup;
    var index := IndexOfRating(student.ratings, ratingId);
    if index.None? {
      return Failure(RatingNotFound(ratingId));
    }
    student.ratings := RemoveAt(student.ratings, index.value);
    r := Success(student);
  }

  // ---------------------------------------------------------------- badges

  /** The badge list after an add request: the id is appended unless it is already there. */
  function WithBadge(s: seq<string>, badgeId: string): (r: seq<string>)
    ensures badgeId in r
    ensures forall x :: x in r <==> x in s || x == badgeId
    ensures |r| == |s| + (if badgeId in s then 0 else 1) && r[..|s|] == s
  {
    if badgeId in s then s else s + [badgeId]
  }

  predicate NoDuplicates(s: seq<string>) {
    forall i, j :: 0 <= i < j < |s| ==> s[i] != s[j]
  }

  /** Adding is idempotent and never creates a duplicate. */
  lemma AddBadgeIdempotent(s: seq<string>, badgeId: string)
    ensures WithBadge(WithBadge(s, badgeId), badgeId) == WithBadge(s, badgeId)
    ensures NoDuplicates(s) ==> NoDuplicates(WithBadge(s, badgeId))
  {
  }

  /** The predicate `b !== badgeId` the removal filters with. */
  function OtherThan(badgeId: string): string -> bool {
    x => x != badgeId
  }

  /** The badge list after a remove request: every occurrence of the id is dropped. */
  function WithoutBadge(s: seq<string>, badgeId: string): (r: seq<string>)
    ensures badgeId !in r
    ensures forall x :: x != badgeId ==> multiset(r)[x] == multiset(s)[x]
    ensures |r| == |s| - multiset(s)[badgeId]
  {
    FilterCounts(s, OtherThan(badgeId));
    RemovedCount(s, badgeId);
    Filter(s, OtherThan(badgeId))
  }

  lemma {:induction false} RemovedCount(s: seq<string>, badgeId: string)
    ensures |Filter(s, OtherThan(badgeId))| == |s| - multiset(s)[badgeId]
  {
    if s != [] {
      var s' := s[..|s| - 1];
      RemovedCount(s', badgeId);
      assert s == s' + [s[|s| - 1]];
    }
  }

  /** Removal keeps the survivors in their stored order: it distributes over concatenation,
      and a list without the id comes back unchanged. */
  lemma RemoveBadgeKeepsOrder(a: seq<string>, c: seq<string>, badgeId: string)
    ensures WithoutBadge(a + c, badgeId) == WithoutBadge(a, badgeId) + WithoutBadge(c, badgeId)
    ensures badgeId !in a ==> WithoutBadge(a, badgeId) == a
  {
    FilterAppend(a, c, OtherThan(badgeId));
    if badgeId !in a {
      FilterKeepsAll(a, OtherThan(badgeId));
    }
  }

  /** Removing a badge that was just added to a list without it gives the list back. */
  lemma AddThenRemoveBadge(s: seq<string>, badgeId: string)
    requires badgeId !in s
    ensures WithoutBadge(WithBadge(s, badgeId), badgeId) == s
  {
    RemoveBadgeKeepsOrder(s, [badgeId], badgeId);
    RemoveBadgeKeepsOrder(s, [], badgeId);
    assert WithoutBadge([badgeId], badgeId) == [];
  }

  /** The add-badge handler: push the id when the list does not include it. */
  method AddBadge(studentId: string, lookup: Student?, badgeId: string) returns (r: Result<Student, RouteError>)
    modifies lookup
    ensures lookup == null ==> r == Failure(StudentNotFound(studentId))
    ensures lookup != null ==>
      r == Success(lookup) && lookup.badges == WithBadge(old(lookup.badges), badgeId) && OnlyBadgesChanged(lookup)
  {
    if lookup == null {
      return Failure(StudentNotFound(studentId));
    }
    var student := lookup;
    if badgeId !in student.badges {
      student.badges := student.badges + [badgeId];
    }
    r := Success(student);
  }

  /** The remove-badge handler: reassign the list filtered of the id. */
  method RemoveBadge(studentId: string, lookup: Student?, badgeId: string) returns (r: Result<Student, RouteError>)
    modifies lookup
    ensures lookup == null ==> r == Failure(StudentNotFound(studentId))
    ensures lookup != null ==>
      r == Success(lookup) && lookup.badges == WithoutBadge(old(lookup.badges), badgeId) && OnlyBadgesChanged(lookup)
  {
    if lookup == null {
      return Failure(StudentNotFound(studentId));
    }
    var student := lookup;
    student.badges := Filter(student.badges, OtherThan(badgeId));
    r := Success(student);
  }
}
