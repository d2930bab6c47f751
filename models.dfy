/** The three collections of the portal (users, courses, feedback) as
    records, with the field constraints, defaults and unique indexes their
    schemas declare, the user document's save hook and its JSON view. */
module Models {
  import opened Common
  import opened Text
  import opened Seqs

  // ---------------------------------------------------------------- time

  /** A UTC instant as `Date` holds it, broken into calendar fields. */
  datatype DateTime = DateTime(year: int, month: int, day: int,
                               hour: int, minute: int, second: int, millis: int)

  predicate IsLeapYear(y: int) {
    (y % 4 == 0 && y % 100 != 0) || y % 400 == 0
  }

  function DaysInMonth(y: int, m: int): int {
    if m == 2 then (if IsLeapYear(y) then 29 else 28)
    else if m == 4 || m == 6 || m == 9 || m == 11 then 30
    else 31
  }

  /** An instant `toISOString` renders with a four-digit year. */
  predicate ValidDateTime(t: DateTime) {
    && 0 <= t.year <= 9999
    && 1 <= t.month <= 12
    && 1 <= t.day <= DaysInMonth(t.year, t.month)
    && 0 <= t.hour < 24 && 0 <= t.minute < 60 && 0 <= t.second < 60 && 0 <= t.millis < 1000
  }

  /** A count that orders valid instants as the calendar does (what `Date` comparison uses). */
  function Ticks(t: DateTime): int {
    (((((t.year * 13 + t.month) * 32 + t.day) * 24 + t.hour) * 60 + t.minute) * 60 + t.second) * 1000
      + t.millis
  }

  /** Calendar order on the fields, most significant first. */
  predicate EarlierFields(a: DateTime, b: DateTime) {
    || a.year < b.year
    || (a.year == b.year && a.month < b.month)
    || (a.year == b.year && a.month == b.month && a.day < b.day)
    || (a.year == b.year && a.month == b.month && a.day == b.day && a.hour < b.hour)
    || (a.year == b.year && a.month == b.month && a.day == b.day && a.hour == b.hour && a.minute < b.minute)
    || (a.year == b.year && a.month == b.month && a.day == b.day && a.hour == b.hour && a.minute == b.minute
        && a.second < b.second)
    || (a.year == b.year && a.month == b.month && a.day == b.day && a.hour == b.hour && a.minute == b.minute
        && a.second == b.second && a.millis < b.millis)
  }

  lemma MulNonNegative(a: int, b: int)
    requires a >= 0 && b >= 0
    ensures a * b >= 0
  {
  }

  lemma FieldStep(hi1: int, lo1: int, hi2: int, lo2: int, base: int)
    requires 0 <= lo1 < base && 0 <= lo2 < base
    ensures hi1 < hi2 ==> hi1 * base + lo1 < hi2 * base + lo2
    ensures hi1 == hi2 ==> (hi1 * base + lo1 < hi2 * base + lo2 <==> lo1 < lo2)
    ensures hi1 > hi2 ==> hi1 * base + lo1 > hi2 * base + lo2
  {
    if hi1 < hi2 {
      MulNonNegative(hi2 - hi1 - 1, base);
      assert hi2 * base == (hi2 - hi1 - 1) * base + hi1 * base + base;
    } else if hi1 > hi2 {
      MulNonNegative(hi1 - hi2 - 1, base);
      assert hi1 * base == (hi1 - hi2 - 1) * base + hi2 * base + base;
    }
  }

  /** Comparing `Ticks` is comparing the calendar fields. */
  lemma TicksOrder(a: DateTime, b: DateTime)
    requires ValidDateTime(a) && ValidDateTime(b)
    ensures Ticks(a) < Ticks(b) <==> EarlierFields(a, b)
    ensures Ticks(a) == Ticks(b) <==> a == b
  {
    var ya, yb := a.year * 13 + a.month, b.year * 13 + b.month;
    FieldStep(a.year, a.month, b.year, b.month, 13);
    var da, db := ya * 32 + a.day, yb * 32 + b.day;
    FieldStep(ya, a.day, yb, b.day, 32);
    var ha, hb := da * 24 + a.hour, db * 24 + b.hour;
    FieldStep(da, a.hour, db, b.hour, 24);
    var ma, mb := ha * 60 + a.minute, hb * 60 + b.minute;
    FieldStep(ha, a.minute, hb, b.minute, 60);
    var sa, sb := ma * 60 + a.second, mb * 60 + b.second;
    FieldStep(ma, a.second, mb, b.second, 60);
    FieldStep(sa, a.millis, sb, b.millis, 1000);
  }

  /** `d.setMonth(d.getMonth() - 12)`: the same date a year earlier; a 29 February
      whose earlier year has no such day rolls over into 1 March. */
  function TwelveMonthsBefore(t: DateTime): (r: DateTime)
    requires ValidDateTime(t) && t.year >= 1
    ensures ValidDateTime(r)
    ensures r.year == t.year - 1
    ensures Ticks(r) < Ticks(t)
    ensures r.hour == t.hour && r.minute == t.minute && r.second == t.second && r.millis == t.millis
    ensures t.day <= DaysInMonth(t.year - 1, t.month) ==> r == t.(year := t.year - 1)
    ensures t.day > DaysInMonth(t.year - 1, t.month)
            ==> t.month == 2 && t.day == 29 && r.month == 3 && r.day == 1
  {
    var y := t.year - 1;
    if t.day <= DaysInMonth(y, t.month) then t.(year := y)
    else t.(year := y, month := t.month + 1, day := t.day - DaysInMonth(y, t.month))
  }

  /** `date.toISOString()`: `YYYY-MM-DDTHH:mm:ss.sssZ`. */
  function IsoString(t: DateTime): (r: string)
    requires ValidDateTime(t)
  {
    IsoDate(t) + "T" + IsoTime(t) + "." + Digits(t.millis, 10, 3) + "Z"
  }

  /** The `YYYY-MM-DD` part of the ISO text. */
  function IsoDate(t: DateTime): (r: string)
    requires ValidDateTime(t)
    ensures |r| == 10 && 'T' !in r && '.' !in r && ',' !in r
  {
    DecimalDigitsAreDigits(t.year, 4);
    DecimalDigitsAreDigits(t.month, 2);
    DecimalDigitsAreDigits(t.day, 2);
    Digits(t.year, 10, 4) + "-" + Digits(t.month, 10, 2) + "-" + Digits(t.day, 10, 2)
  }

  /** The `HH:mm:ss` part of the ISO text. */
  function IsoTime(t: DateTime): (r: string)
    requires ValidDateTime(t)
    ensures |r| == 8 && 'T' !in r && '.' !in r && ',' !in r
  {
    DecimalDigitsAreDigits(t.hour, 2);
    DecimalDigitsAreDigits(t.minute, 2);
    DecimalDigitsAreDigits(t.second, 2);
    Digits(t.hour, 10, 2) + ":" + Digits(t.minute, 10, 2) + ":" + Digits(t.second, 10, 2)
  }

  // ---------------------------------------------------------------- records

  datatype Role = Student | Admin

  /** A user document. `password` holds what the document stores: the bcrypt
      hash once the save hook has run. */
  datatype User = User(id: Id, name: string, email: string, password: string, role: Role,
                       phone: string, dateOfBirth: string, address: string,
                       profilePicture: string, isBlocked: bool, createdAt: DateTime)

  datatype Course = Course(id: Id, name: string, code: string, description: string,
                           instructor: string, credits: int, isActive: bool, createdAt: DateTime)

  datatype Feedback = Feedback(id: Id, student: Id, course: Id, rating: int, message: string,
                               createdAt: DateTime, updatedAt: DateTime)

  // ---------------------------------------------------------------- schema constraints

  /** `/^\d{10}$/` */
  predicate IsPhone(s: string) {
    |s| == 10 && AllDigits(s)
  }

  /** `\w+([.-]?\w+)*`: runs of word characters joined by single `.` or `-`. */
  predicate WordRun(s: string) {
    && |s| > 0 && IsWordChar(s[0]) && IsWordChar(s[|s| - 1])
    && (forall i :: 0 <= i < |s| ==> IsWordChar(s[i]) || s[i] == '.' || s[i] == '-')
    && (forall i :: 0 <= i < |s| - 1 ==> IsWordChar(s[i]) || IsWordChar(s[i + 1]))
  }

  /** `(\.\w{2,3})+$` */
  predicate TldGroups(s: string)
    decreases |s|
  {
    && |s| >= 3 && s[0] == '.' && IsWordChar(s[1]) && IsWordChar(s[2])
    && (|s| == 3 || TldGroups(s[3..]) || (IsWordChar(s[3]) && (|s| == 4 || TldGroups(s[4..]))))
  }

  /** The user schema's email pattern `^\w+([.-]?\w+)*@\w+([.-]?\w+)*(\.\w{2,3})+$`:
      some `@` splits the address into a local part and a domain. */
  predicate EmailPattern(e: string) { EmailFrom(e, 0) }

  /** An `@` at position `a` or later splits `e` as the pattern requires. */
  predicate EmailFrom(e: string, a: nat)
    decreases |e| - a
  {
    a < |e| && ((e[a] == '@' && WordRun(e[..a]) && Domain(e[a + 1..])) || EmailFrom(e, a + 1))
  }

  /** `\w+([.-]?\w+)*(\.\w{2,3})+$`: a word run followed by the top-level groups. */
  predicate Domain(s: string) { DomainFrom(s, 1) }

  predicate DomainFrom(s: string, d: nat)
    decreases |s| - d
  {
    d < |s| && ((WordRun(s[..d]) && TldGroups(s[d..])) || DomainFrom(s, d + 1))
  }

  predicate EmailChar(c: char) { IsWordChar(c) || c == '.' || c == '-' }

  lemma {:induction false} TldChars(s: string)
    requires TldGroups(s)
    ensures forall i :: 0 <= i < |s| ==> EmailChar(s[i])
    decreases |s|
  {
    if |s| > 3 {
      if TldGroups(s[3..]) {
        TldChars(s[3..]);
        assert forall i :: 3 <= i < |s| ==> s[i] == s[3..][i - 3];
      } else if |s| > 4 {
        TldChars(s[4..]);
        assert forall i :: 4 <= i < |s| ==> s[i] == s[4..][i - 4];
      }
    }
  }

  lemma {:induction false} DomainChars(s: string, d: nat)
    requires DomainFrom(s, d)
    ensures forall i :: 0 <= i < |s| ==> EmailChar(s[i])
    decreases |s| - d
  {
    if WordRun(s[..d]) && TldGroups(s[d..]) {
      TldChars(s[d..]);
      forall i | 0 <= i < |s| ensures EmailChar(s[i]) {
        if i < d {
          assert s[i] == s[..d][i];
        } else {
          assert s[i] == s[d..][i - d];
        }
      }
    } else {
      DomainChars(s, d + 1);
    }
  }

  lemma {:induction false} EmailFromShape(e: string, a: nat)
    requires EmailFrom(e, a)
    ensures exists k :: a <= k < |e| && e[k] == '@'
                        && forall i :: 0 <= i < |e| && i != k ==> EmailChar(e[i])
    decreases |e| - a
  {
    if e[a] == '@' && WordRun(e[..a]) && Domain(e[a + 1..]) {
      DomainChars(e[a + 1..], 1);
      forall i | 0 <= i < |e| && i != a ensures EmailChar(e[i]) {
        if i < a {
          assert e[i] == e[..a][i];
        } else {
          assert e[i] == e[a + 1..][i - a - 1];
        }
      }
    } else {
      EmailFromShape(e, a + 1);
    }
  }

  /** An address the pattern accepts has exactly one `@`, and every other
      character is a word character, `.` or `-` (so no space, quote or comma). */
  lemma EmailShape(e: string)
    requires EmailPattern(e)
    ensures exists a :: 0 <= a < |e| && e[a] == '@'
                        && forall i :: 0 <= i < |e| && i != a ==> EmailChar(e[i])
  {
    EmailFromShape(e, 0);
  }

  /** The user schema: required fields, trimmed name of at most 50 characters,
      lower-case email matching the pattern, ten-digit phone, address of at
      most 200 characters. The password's length is checked on the plain text
      when it is saved (see `UserDocument.Save`); the stored hash is not constrained. */
  predicate ValidUser(u: User) {
    && u.name != [] && IsTrimmed(u.name) && |u.name| <= 50
    && NoUpperAscii(u.email) && EmailPattern(u.email)
    && IsPhone(u.phone)
    && u.dateOfBirth != []
    && u.address != [] && |u.address| <= 200
    && ValidDateTime(u.createdAt)
  }

  /** The course schema: trimmed name of at most 100 characters, trimmed
      upper-case code of at most 10, description of at most 500, trimmed
      instructor of at most 50, credits in 1..6. */
  predicate ValidCourse(c: Course) {
    && c.name != [] && IsTrimmed(c.name) && |c.name| <= 100
    && c.code != [] && IsTrimmed(c.code) && NoLowerAscii(c.code) && |c.code| <= 10
    && c.description != [] && |c.description| <= 500
    && c.instructor != [] && IsTrimmed(c.instructor) && |c.instructor| <= 50
    && 1 <= c.credits <= 6
    && ValidDateTime(c.createdAt)
  }

  /** The feedback schema: rating in 1..5, trimmed message of at most 1000 characters. */
  predicate ValidFeedback(f: Feedback) {
    && 1 <= f.rating <= 5
    && f.message != [] && IsTrimmed(f.message) && |f.message| <= 1000
    && ValidDateTime(f.createdAt) && ValidDateTime(f.updatedAt)
  }

  // ---------------------------------------------------------------- defaults

  /** `Course.create` with the schema's setters (trim, upper-case) and `isActive` defaulting to true. */
  function NewCourse(id: Id, name: string, code: string, description: string, instructor: string,
                     credits: int, now: DateTime): (c: Course)
    ensures c.isActive
    ensures c.code == ToUpperAscii(Trim(code)) && c.name == Trim(name) && c.instructor == Trim(instructor)
  {
    Course(id, Trim(name), ToUpperAscii(Trim(code)), description, Trim(instructor), credits, true, now)
  }

  /** `User.create` with the schema's setters and defaults: role student, not
      blocked, no profile picture. The password is still the plain text here;
      the save hook replaces it. */
  function NewUser(id: Id, name: string, email: string, password: string, phone: string,
                   dateOfBirth: string, address: string, now: DateTime): (u: User)
    ensures u.role == Student && !u.isBlocked && u.profilePicture == []
    ensures u.name == Trim(name) && u.email == ToLowerAscii(email)
  {
    User(id, Trim(name), ToLowerAscii(email), password, Student, phone, dateOfBirth, address, "", false, now)
  }

  // ---------------------------------------------------------------- the collections

  predicate HasStudent(users: seq<User>, id: Id) {
    exists i :: 0 <= i < |users| && users[i].id == id && users[i].role == Student
  }

  predicate HasCourse(courses: seq<Course>, id: Id) {
    exists i :: 0 <= i < |courses| && courses[i].id == id
  }

  /** Two users that the `_id` index and the unique index on `email` allow side by side. */
  predicate DistinctUsers(a: User, b: User) {
    a.id != b.id && a.email != b.email
  }

  /** Two courses that the `_id` index and the unique index on `code` allow side by side. */
  predicate DistinctCourses(a: Course, b: Course) {
    a.id != b.id && a.code != b.code
  }

  /** Two feedback records that the `_id` index and the unique index on
      `(student, course)` allow side by side. */
  predicate DistinctFeedback(a: Feedback, b: Feedback) {
    a.id != b.id && !(a.student == b.student && a.course == b.course)
  }

  predicate UsersUnique(users: seq<User>) { Pairwise(users, DistinctUsers) }

  predicate CoursesUnique(courses: seq<Course>) { Pairwise(courses, DistinctCourses) }

  predicate FeedbackUnique(fs: seq<Feedback>) { Pairwise(fs, DistinctFeedback) }

  /** What every route keeps true of the store: each document satisfies its
      schema, the unique indexes hold, and every feedback refers to an
      existing student and an existing course. */
  predicate Consistent(users: seq<User>, courses: seq<Course>, fs: seq<Feedback>) {
    && (forall i :: 0 <= i < |users| ==> ValidUser(users[i]))
    && (forall i :: 0 <= i < |courses| ==> ValidCourse(courses[i]))
    && (forall i :: 0 <= i < |fs| ==> ValidFeedback(fs[i]))
    && UsersUnique(users) && CoursesUnique(courses) && FeedbackUnique(fs)
    && (forall i :: 0 <= i < |fs| ==> HasStudent(users, fs[i].student) && HasCourse(courses, fs[i].course))
  }

  // ---------------------------------------------------------------- query conditions

  /** `{ _id: id }` on users */
  function UserIdIs(id: Id): User -> bool { (u: User) => u.id == id }

  /** `{ _id: id, role: "student" }` */
  function StudentIdIs(id: Id): User -> bool { (u: User) => u.id == id && u.role == Student }

  /** `{ email: e }` */
  function EmailIs(e: string): User -> bool { (u: User) => u.email == e }

  /** `{ _id: id }` on courses */
  function CourseIdIs(id: Id): Course -> bool { (c: Course) => c.id == id }

  /** `{ code: code }` */
  function CodeIs(code: string): Course -> bool { (c: Course) => c.code == code }

  /** `{ _id: id }` on feedback */
  function FeedbackIdIs(id: Id): Feedback -> bool { (f: Feedback) => f.id == id }

  /** Every feedback record but the one with `_id` `id`. */
  function FeedbackIdIsNot(id: Id): Feedback -> bool { (f: Feedback) => f.id != id }

  /** `{ student: id }` */
  function ByStudent(id: Id): Feedback -> bool { (f: Feedback) => f.student == id }

  /** `{ course: id }` */
  function AboutCourse(id: Id): Feedback -> bool { (f: Feedback) => f.course == id }

  /** Every user but the one with `_id` `id`. */
  function UserIdIsNot(id: Id): User -> bool { (u: User) => u.id != id }

  /** Every course but the one with `_id` `id`. */
  function CourseIdIsNot(id: Id): Course -> bool { (c: Course) => c.id != id }

  /** `{ student: s, course: c }` */
  function PairIs(student: Id, course: Id): Feedback -> bool { (f: Feedback) => f.student == student && f.course == course }

  // ---------------------------------------------------------------- JSON view

  /** A field value of the plain object `toObject` returns; dates stay `Date`s. */
  datatype JsonValue = JString(s: string) | JBool(b: bool) | JNumber(n: int) | JDate(t: DateTime)

  /** An ObjectId's `toString()`: 24 lower-case hexadecimal digits. */
  function ObjectIdText(id: Id): (r: string)
    ensures |r| == 24
  {
    Digits(id, 16, 24)
  }

  function RoleText(r: Role): string {
    match r
    case Student => "student"
    case Admin => "admin"
  }

  /** `user.toObject()` of a document loaded with its password; the
      `createdAt` timestamp stays a `Date`. */
  function UserObject(u: User): map<string, JsonValue> {
    map["_id" := JString(ObjectIdText(u.id)), "name" := JString(u.name), "email" := JString(u.email),
        "password" := JString(u.password), "role" := JString(RoleText(u.role)),
        "phone" := JString(u.phone), "dateOfBirth" := JString(u.dateOfBirth),
        "address" := JString(u.address), "profilePicture" := JString(u.profilePicture),
        "isBlocked" := JBool(u.isBlocked), "createdAt" := JDate(u.createdAt)]
  }

  /** `toJSON`: the object with the `password` entry deleted and every other entry kept. */
  function ToJson(u: User): (r: map<string, JsonValue>)
    ensures "password" !in r
    ensures forall k :: k in r <==> k in UserObject(u) && k != "password"
    ensures forall k :: k in r ==> r[k] == UserObject(u)[k]
  {
    UserObject(u) - {"password"}
  }

  // ---------------------------------------------------------------- the user document

  /** A loaded or newly built user document and whether its password path
      has been modified since it was loaded. */
  class UserDocument {
    var record: User
    var passwordModified: bool

    /** A document fetched from the store: nothing modified yet. */
    constructor Load(u: User)
      ensures record == u && !passwordModified
    {
      record := u;
      passwordModified := false;
    }

    /** `new User({...})` / `User.create`: every path of a new document counts as modified. */
    constructor Build(u: User)
      ensures record == u && passwordModified
    {
      record := u;
      passwordModified := true;
    }

    /** `user.password = p` */
    method SetPassword(p: string)
      modifies this
      ensures record == old(record).(password := p) && passwordModified
    {
      record := record.(password := p);
      passwordModified := true;
    }

    /** `user.isBlocked = b`: the password path stays as it was. */
    method SetBlocked(b: bool)
      modifies this
      ensures record == old(record).(isBlocked := b)
      ensures passwordModified == old(passwordModified)
    {
      record := record.(isBlocked := b);
    }

    /** `save()`: validation first (the password is validated only when it was
        modified, and then must have at least 8 characters); then the pre-save
        hook replaces the password by its hash only when it was modified; after
        a save nothing counts as modified. A failed validation changes nothing. */
    method Save(hash: string -> string) returns (saved: bool)
      modifies this
      ensures saved <==> !old(passwordModified) || |old(record).password| >= 8
      ensures saved ==> !passwordModified
      ensures saved ==> record == if old(passwordModified)
                                  then old(record).(password := hash(old(record).password))
                                  else old(record)
      ensures !saved ==> record == old(record) && passwordModified
    {
      if passwordModified && |record.password| < 8 {
        return false;
      }
      if passwordModified {
        record := record.(password := hash(record.password));
      }
      passwordModified := false;
      saved := true;
    }
  }
}
