/** The student aggregate: the fields the handlers read and change, with its embedded lists. */
module StudentModel {

  /** One attendance record embedded in a student. `id` is the sub-document id the store
      assigns when the record is appended, `createdAt` the moment it was appended. */
  datatype Entry = Entry(id: string, day: int, week: int, month: int, status: bool, createdAt: int)

  /** The natural key of an attendance record: no two records of a student may share it. */
  function Key(e: Entry): (int, int, int) {
    (e.day, e.week, e.month)
  }

  /** One periodic rating embedded in a student; `date` defaults to the moment it is added. */
  datatype Rating = Rating(
    id: string, week: int, day: int,
    assignments: int, participation: int, performance: int,
    date: int)

  /** A student document. The handlers update its fields and embedded lists in place and
      then save the whole document. */
  class Student {
    var name: string
    var email: string
    var phone: string
    var studentCode: string
    var attendance: seq<Entry>
    var ratings: seq<Rating>
    var badges: seq<string>

    constructor (name: string, email: string, phone: string, studentCode: string)
      ensures this.name == name && this.email == email && this.phone == phone
      ensures this.studentCode == studentCode
      ensures attendance == [] && ratings == [] && badges == []
    {
      this.name := name;
      this.email := email;
      this.phone := phone;
      this.studentCode := studentCode;
      attendance := [];
      ratings := [];
      badges := [];
    }
  }

  /** The three contact fields the create and update handlers validate. */
  datatype Contact = Contact(name: string, email: string, phone: string)

  function ContactOf(s: Student): Contact
    reads s
  {
    Contact(s.name, s.email, s.phone)
  }

  /** Across a handler that edits only the contact fields, the code and the lists keep their values. */
  twostate predicate OnlyContactChanged(s: Student)
    reads s
  {
    s.studentCode == old(s.studentCode) && s.attendance == old(s.attendance)
    && s.ratings == old(s.ratings) && s.badges == old(s.badges)
  }

  /** Across a handler that edits only the attendance list, every other field keeps its value. */
  twostate predicate OnlyAttendanceChanged(s: Student)
    reads s
  {
    s.name == old(s.name) && s.email == old(s.email) && s.phone == old(s.phone)
    && s.studentCode == old(s.studentCode) && s.ratings == old(s.ratings) && s.badges == old(s.badges)
  }

  /** Across a handler that edits only the ratings list, every other field keeps its value. */
  twostate predicate OnlyRatingsChanged(s: Student)
    reads s
  {
    s.name == old(s.name) && s.email == old(s.email) && s.phone == old(s.phone)
    && s.studentCode == old(s.studentCode) && s.attendance == old(s.attendance) && s.badges == old(s.badges)
  }

  /** Across a handler that edits only the badge list, every other field keeps its value. */
  twostate predicate OnlyBadgesChanged(s: Student)
    reads s
  {
    s.name == old(s.name) && s.email == old(s.email) && s.phone == old(s.phone)
    && s.studentCode == old(s.studentCode) && s.attendance == old(s.attendance) && s.ratings == old(s.ratings)
  }
}
