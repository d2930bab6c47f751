/** The admin routes over courses: every course with its feedback totals, and
    creating, updating and deleting a course. */
module AdminCourses {
  import opened Common
  import opened Text
  import opened Seqs
  import opened Sorting
  import opened Models
  import opened Store
  import opened Validators
  import opened Stats
  import FeedbackRoutes

  // ---------------------------------------------------------------- the course list

  /** A listed course with the number of records about it and their mean
      rating (`|| 0`: 0 when there is none). */
  datatype CourseWithStats = CourseWithStats(course: Course, totalFeedback: nat, averageRating: real)

  function WithStats(fs: seq<Feedback>, c: Course): CourseWithStats {
    CourseWithStats(c, Count(fs, AboutCourse(c.id)), Mean(Filter(fs, AboutCourse(c.id))))
  }

  /** `GET /api/admin/courses`: every course, by name, with its totals. */
  function CourseList(courses: seq<Course>, fs: seq<Feedback>): (r: seq<CourseWithStats>)
    ensures |r| == |courses|
  {
    var s := Sort(courses, FeedbackRoutes.ByName());
    seq(|s|, i requires 0 <= i < |s| => WithStats(fs, s[i]))
  }

  /** The courses of a listing, in order. */
  function CoursesIn(r: seq<CourseWithStats>): seq<Course> {
    seq(|r|, i requires 0 <= i < |r| => r[i].course)
  }

  /** One course's totals: the count of the records about it, and their
      mean, which is 0 exactly when there are none and otherwise lies in 1..5. */
  lemma WithStatsMeaning(fs: seq<Feedback>, c: Course)
    requires RatingsInRange(fs)
    ensures var e := WithStats(fs, c);
            && e.course == c
            && e.totalFeedback == Count(fs, AboutCourse(c.id))
            && e.averageRating == Mean(Filter(fs, AboutCourse(c.id)))
            && (e.totalFeedback == 0 <==> e.averageRating == 0.0)
            && (e.totalFeedback > 0 ==> 1.0 <= e.averageRating <= 5.0)
  {
    var about := Filter(fs, AboutCourse(c.id));
    if about != [] {
      assert RatingsInRange(about) by {
        forall j | 0 <= j < |about| ensures 1 <= about[j].rating <= 5 {
          var m :| 0 <= m < |fs| && fs[m] == about[j];
        }
      }
      MeanBounds(about);
    }
  }

  /** Every course is listed once, in name order; the total counts the
      records about the course, the average is the mean of their ratings,
      and it is 0 exactly when there are none and otherwise lies in 1..5. */
  lemma CourseListMeaning(courses: seq<Course>, fs: seq<Feedback>)
    requires RatingsInRange(fs)
    ensures multiset(CoursesIn(CourseList(courses, fs))) == multiset(courses)
    ensures SortedBy(CoursesIn(CourseList(courses, fs)), FeedbackRoutes.ByName())
    ensures forall i :: 0 <= i < |courses| ==>
              var e := CourseList(courses, fs)[i];
              && e.totalFeedback == Count(fs, AboutCourse(e.course.id))
              && e.averageRating == Mean(Filter(fs, AboutCourse(e.course.id)))
              && (e.totalFeedback == 0 <==> e.averageRating == 0.0)
              && (e.totalFeedback > 0 ==> 1.0 <= e.averageRating <= 5.0)
    ensures forall i :: 0 <= i < |courses| ==>
              CourseList(courses, fs)[i].averageRating * (CourseList(courses, fs)[i].totalFeedback as real)
              == RatingSum(Filter(fs, AboutCourse(CourseList(courses, fs)[i].course.id))) as real
  {
    var s := Sort(courses, FeedbackRoutes.ByName());
    AscendingTextIsTotal((c: Course) => c.name);
    SortSorted(courses, FeedbackRoutes.ByName());
    assert CoursesIn(CourseList(courses, fs)) == s;
    forall i | 0 <= i < |courses|
      ensures var e := CourseList(courses, fs)[i];
              && e.totalFeedback == Count(fs, AboutCourse(e.course.id))
              && e.averageRating == Mean(Filter(fs, AboutCourse(e.course.id)))
              && (e.totalFeedback == 0 <==> e.averageRating == 0.0)
              && (e.totalFeedback > 0 ==> 1.0 <= e.averageRating <= 5.0)
    {
      assert CourseList(courses, fs)[i] == WithStats(fs, s[i]);
      WithStatsMeaning(fs, s[i]);
    }
    forall i | 0 <= i < |courses| {
      EntryAverage(CourseList(courses, fs)[i], fs);
    }
  }

  /** `$avg`: an entry whose average is the mean of the records about its
      course, and whose total is their count, has average times total equal
      to the sum of their ratings. */
  lemma EntryAverage(e: CourseWithStats, fs: seq<Feedback>)
    requires e.averageRating == Mean(Filter(fs, AboutCourse(e.course.id)))
    requires e.totalFeedback == Count(fs, AboutCourse(e.course.id))
    ensures e.averageRating * (e.totalFeedback as real) == RatingSum(Filter(fs, AboutCourse(e.course.id))) as real
  {
    MeanTimesCount(Filter(fs, AboutCourse(e.course.id)), e.averageRating, e.totalFeedback as real);
  }

  // ---------------------------------------------------------------- creating

  /** The validators of `POST /api/admin/courses`. */
  predicate CourseFieldsValid(name: string, code: string, description: string, instructor: string, credits: IntParam) {
    && TrimmedLengthIn(name, 2, 100)
    && TrimmedLengthIn(code, 2, 10)
    && TrimmedLengthIn(description, 10, 500)
    && TrimmedLengthIn(instructor, 2, 50)
    && credits.RequiredIntIn(1, 6)
  }

  /** A course code as the sanitizers leave it: trimmed, then upper-cased. */
  function SanitizedCode(code: string): string {
    ToUpperAscii(Trim(code))
  }

  /** Whether a course with this code exists (`Course.findOne({ code })`). */
  predicate CodeTaken(courses: seq<Course>, code: string) {
    exists i :: 0 <= i < |courses| && courses[i].code == code
  }

  /** The course `Course.create` builds from the sanitized fields. */
  function Created(id: Id, name: string, code: string, description: string, instructor: string,
                   credits: int, now: DateTime): Course {
    NewCourse(id, Trim(name), SanitizedCode(code), Trim(description), Trim(instructor), credits, now)
  }

  /** The sanitized code is already in the form the schema's `trim` and
      `uppercase` setters produce, so the setters leave it as it is. */
  lemma SanitizedCodeIsFinal(code: string)
    ensures IsTrimmed(SanitizedCode(code)) && NoLowerAscii(SanitizedCode(code))
    ensures Trim(SanitizedCode(code)) == SanitizedCode(code)
    ensures ToUpperAscii(Trim(SanitizedCode(code))) == SanitizedCode(code)
    ensures |SanitizedCode(code)| == |Trim(code)|
  {
    var t := Trim(code);
    TrimIdempotent(code);
    TrimmedIff(t);
    CaseKeepsTrimmed(t);
    UpperCaseIsFinal(t);
    TrimmedIff(SanitizedCode(code));
    UpperCaseIsFinal(SanitizedCode(code));
  }

  /** Whatever passes the validators makes a course the schema accepts,
      with the sanitized values. */
  lemma CreatedIsValid(id: Id, name: string, code: string, description: string, instructor: string,
                       credits: IntParam, now: DateTime)
    requires CourseFieldsValid(name, code, description, instructor, credits) && ValidDateTime(now)
    ensures ValidCourse(Created(id, name, code, description, instructor, credits.n, now))
    ensures Created(id, name, code, description, instructor, credits.n, now).code == SanitizedCode(code)
    ensures Created(id, name, code, description, instructor, credits.n, now).name == Trim(name)
  {
    TrimIdempotent(name);
    TrimIdempotent(instructor);
    TrimmedIff(Trim(name));
    TrimmedIff(Trim(instructor));
    SanitizedCodeIsFinal(code);
  }

  /** `POST /api/admin/courses` */
  method CreateCourse(db: Db, name: string, code: string, description: string, instructor: string,
                      credits: IntParam, now: DateTime) returns (r: Response<(string, Course)>)
    requires db.Valid() && ValidDateTime(now)
    modifies db
    ensures db.Valid()
    ensures !CourseFieldsValid(name, code, description, instructor, credits) ==> r == Fail(BadRequest, "Validation failed")
    ensures CourseFieldsValid(name, code, description, instructor, credits) && CodeTaken(old(db.courses), SanitizedCode(code))
            ==> r == Fail(BadRequest, "Course code already exists")
    ensures r.Ok? <==> CourseFieldsValid(name, code, description, instructor, credits)
                       && !CodeTaken(old(db.courses), SanitizedCode(code))
    ensures r.Fail? ==> db.courses == old(db.courses) && db.nextId == old(db.nextId)
    ensures r.Ok? ==> r == Ok(201, ("Course created successfully",
                                    Created(old(db.nextId), name, code, description, instructor, credits.n, now)))
    ensures r.Ok? ==> db.courses == old(db.courses) + [r.body.1] && db.nextId == old(db.nextId) + 1
    ensures db.users == old(db.users) && db.feedback == old(db.feedback)
  {
    if !CourseFieldsValid(name, code, description, instructor, credits) {
      return Fail(BadRequest, "Validation failed");
    }
    var sanitized := SanitizedCode(code);
    var existing := IndexWhere(db.courses, CodeIs(sanitized));
    if existing.Some? {
      assert db.courses[existing.value].code == sanitized;
      return Fail(BadRequest, "Course code already exists");
    }
    assert !CodeTaken(db.courses, sanitized);
    var course := Created(db.nextId, name, code, description, instructor, credits.n, now);
    CreatedIsValid(db.nextId, name, code, description, instructor, credits, now);
    assert course.code == sanitized;
    db.InsertCourse(course);
    r := Ok(201, ("Course created successfully", course));
  }

  // ---------------------------------------------------------------- updating

  /** An optional `isBoolean()` body field: not sent, a boolean, or something else. */
  datatype BoolParam = NoBool | GivenBool(b: bool) | NotBool

  /** The validators of `PUT /api/admin/courses/:id`: each field is checked only when sent. */
  predicate CourseUpdateValid(name: Option<string>, code: Option<string>, description: Option<string>,
                              instructor: Option<string>, credits: IntParam, isActive: BoolParam) {
    && (name.Some? ==> TrimmedLengthIn(name.value, 2, 100))
    && (code.Some? ==> TrimmedLengthIn(code.value, 2, 10))
    && (description.Some? ==> TrimmedLengthIn(description.value, 10, 500))
    && (instructor.Some? ==> TrimmedLengthIn(instructor.value, 2, 50))
    && credits.OptionalIntIn(1, 6)
    && !isActive.NotBool?
  }

  /** `findByIdAndUpdate(id, req.body)`: each field sent replaces the stored
      one with its sanitized value; the others stay. */
  function Revised(c: Course, name: Option<string>, code: Option<string>, description: Option<string>,
                   instructor: Option<string>, credits: IntParam, isActive: BoolParam): Course {
    c.(name := if name.Some? then Trim(name.value) else c.name,
       code := if code.Some? then SanitizedCode(code.value) else c.code,
       description := if description.Some? then Trim(description.value) else c.description,
       instructor := if instructor.Some? then Trim(instructor.value) else c.instructor,
       credits := if credits.Int? then credits.n else c.credits,
       isActive := if isActive.GivenBool? then isActive.b else c.isActive)
  }

  /** An update keeps the course's id and creation time, and sending
      nothing changes nothing. */
  lemma RevisedKeeps(c: Course, name: Option<string>, code: Option<string>, description: Option<string>,
                     instructor: Option<string>, credits: IntParam, isActive: BoolParam)
    ensures Revised(c, name, code, description, instructor, credits, isActive).id == c.id
    ensures Revised(c, name, code, description, instructor, credits, isActive).createdAt == c.createdAt
    ensures Revised(c, None, None, None, None, Absent, NoBool) == c
  {
  }

  /** An update that passes the validators keeps a valid course valid. */
  lemma RevisedIsValid(c: Course, name: Option<string>, code: Option<string>, description: Option<string>,
                       instructor: Option<string>, credits: IntParam, isActive: BoolParam)
    requires ValidCourse(c) && CourseUpdateValid(name, code, description, instructor, credits, isActive)
    ensures ValidCourse(Revised(c, name, code, description, instructor, credits, isActive))
  {
    var r := Revised(c, name, code, description, instructor, credits, isActive);
    if name.Some? {
      TrimmedLengthFitsSchema(name.value, 2, 100);
    }
    assert r.name != [] && IsTrimmed(r.name) && |r.name| <= 100;
    if instructor.Some? {
      TrimmedLengthFitsSchema(instructor.value, 2, 50);
    }
    assert r.instructor != [] && IsTrimmed(r.instructor) && |r.instructor| <= 50;
    if code.Some? {
      SanitizedCodeIsFinal(code.value);
    }
    assert r.code != [] && IsTrimmed(r.code) && NoLowerAscii(r.code) && |r.code| <= 10;
    assert r.description != [] && |r.description| <= 500;
    assert 1 <= r.credits <= 6 && ValidDateTime(r.createdAt);
  }

  /** The source's conflict test: a code was sent, it differs from the
      course's own, and some course already has it. */
  predicate CodeConflict(courses: seq<Course>, current: Course, code: Option<string>) {
    code.Some? && SanitizedCode(code.value) != current.code && CodeTaken(courses, SanitizedCode(code.value))
  }

  /** With unique codes, the conflict test is exactly "another course has
      the new code", which is what keeps the codes unique after the update. */
  lemma CodeConflictMeaning(courses: seq<Course>, k: nat, code: Option<string>)
    requires CoursesUnique(courses) && k < |courses|
    ensures CodeConflict(courses, courses[k], code) <==>
              code.Some? && exists i :: 0 <= i < |courses| && i != k && courses[i].code == SanitizedCode(code.value)
  {
    if code.Some? {
      var c := SanitizedCode(code.value);
      if exists i :: 0 <= i < |courses| && i != k && courses[i].code == c {
        var i :| 0 <= i < |courses| && i != k && courses[i].code == c;
        if i < k {
          assert DistinctCourses(courses[i], courses[k]);
        } else {
          assert DistinctCourses(courses[k], courses[i]);
        }
      }
    }
  }

  /** Without a conflict, the course's code after the update is held by no
      other course. */
  lemma CodeStaysUnique(courses: seq<Course>, k: nat, code: Option<string>)
    requires CoursesUnique(courses) && k < |courses| && !CodeConflict(courses, courses[k], code)
    ensures forall i :: 0 <= i < |courses| && i != k ==>
              courses[i].code != (if code.Some? then SanitizedCode(code.value) else courses[k].code)
  {
    CodeConflictMeaning(courses, k, code);
    forall i | 0 <= i < |courses| && i != k
      ensures courses[i].code != (if code.Some? then SanitizedCode(code.value) else courses[k].code)
    {
      if i < k {
        assert DistinctCourses(courses[i], courses[k]);
      } else {
        assert DistinctCourses(courses[k], courses[i]);
      }
    }
  }

  /** `PUT /api/admin/courses/:id` */
  method UpdateCourse(db: Db, id: PathId, name: Option<string>, code: Option<string>, description: Option<string>,
                      instructor: Option<string>, credits: IntParam, isActive: BoolParam)
      returns (r: Response<(string, Course)>)
    requires db.Valid()
    modifies db
    ensures db.Valid()
    ensures !CourseUpdateValid(name, code, description, instructor, credits, isActive)
            ==> r == Fail(BadRequest, "Validation failed")
    ensures CourseUpdateValid(name, code, description, instructor, credits, isActive) && id.CastFailure?
            ==> r == Fail(ServerError, "Server error")
    ensures (CourseUpdateValid(name, code, description, instructor, credits, isActive) && id.WellFormedId?
             && !HasCourse(old(db.courses), id.id)) ==> r == Fail(NotFound, "Course not found")
    ensures r.Fail? ==> db.courses == old(db.courses)
    ensures r.Ok? ==> (exists k :: 0 <= k < |old(db.courses)| && old(db.courses)[k].id == id.id
                         && !CodeConflict(old(db.courses), old(db.courses)[k], code)
                         && db.courses == old(db.courses)[k := Revised(old(db.courses)[k], name, code, description,
                                                                       instructor, credits, isActive)]
                         && r == Ok(200, ("Course updated successfully", db.courses[k])))
    ensures (CourseUpdateValid(name, code, description, instructor, credits, isActive) && id.WellFormedId?
             && exists k :: 0 <= k < |old(db.courses)| && old(db.courses)[k].id == id.id
                            && CodeConflict(old(db.courses), old(db.courses)[k], code))
            ==> r == Fail(BadRequest, "Course code already exists")
    ensures r.Fail? && r.message == "Course code already exists" ==>
              (exists k :: 0 <= k < |old(db.courses)| && old(db.courses)[k].id == id.id
                           && CodeConflict(old(db.courses), old(db.courses)[k], code))
    ensures r.Ok? || r.message != "Course code already exists" ==>
              (r.Ok? <==> CourseUpdateValid(name, code, description, instructor, credits, isActive)
                          && id.WellFormedId? && HasCourse(old(db.courses), id.id))
    ensures db.users == old(db.users) && db.feedback == old(db.feedback) && db.nextId == old(db.nextId)
  {
    if !CourseUpdateValid(name, code, description, instructor, credits, isActive) {
      return Fail(BadRequest, "Validation failed");
    }
    if id.CastFailure? {
      return Fail(ServerError, "Server error");
    }
    var found := IndexWhere(db.courses, CourseIdIs(id.id));
    if found.None? {
      return Fail(NotFound, "Course not found");
    }
    var k := found.value;
    var course := db.courses[k];
    forall j | 0 <= j < |db.courses| ensures db.courses[j].id == id.id ==> j == k {
      if j < k {
        assert DistinctCourses(db.courses[j], db.courses[k]);
      } else if k < j {
        assert DistinctCourses(db.courses[k], db.courses[j]);
      }
    }
    if code.Some? && SanitizedCode(code.value) != course.code {
      var existing := IndexWhere(db.courses, CodeIs(SanitizedCode(code.value)));
      if existing.Some? {
        return Fail(BadRequest, "Course code already exists");
      }
    }
    var revised := ReviseAt(db, k, name, code, description, instructor, credits, isActive);
    r := Ok(200, ("Course updated successfully", revised));
  }

  /** `findByIdAndUpdate(id, req.body, { runValidators: true })` on the course
      at position `k`, once its new code is known to be free. */
  method ReviseAt(db: Db, k: nat, name: Option<string>, code: Option<string>, description: Option<string>,
                  instructor: Option<string>, credits: IntParam, isActive: BoolParam) returns (revised: Course)
    requires db.Valid() && k < |db.courses|
    requires CourseUpdateValid(name, code, description, instructor, credits, isActive)
    requires !CodeConflict(db.courses, db.courses[k], code)
    modifies db
    ensures db.Valid()
    ensures revised == Revised(old(db.courses)[k], name, code, description, instructor, credits, isActive)
    ensures db.courses == old(db.courses)[k := revised]
    ensures db.users == old(db.users) && db.feedback == old(db.feedback) && db.nextId == old(db.nextId)
  {
    var course := db.courses[k];
    revised := Revised(course, name, code, description, instructor, credits, isActive);
    RevisedIsValid(course, name, code, description, instructor, credits, isActive);
    RevisedKeeps(course, name, code, description, instructor, credits, isActive);
    CodeStaysUnique(db.courses, k, code);
    db.ReplaceCourseAt(k, revised);
  }

  // ---------------------------------------------------------------- deleting

  /** `DELETE /api/admin/courses/:id`: refused while any record refers to the course. */
  method DeleteCourse(db: Db, id: PathId) returns (r: Response<string>)
    requires db.Valid()
    modifies db
    ensures db.Valid()
    ensures id.CastFailure? ==> r == Fail(ServerError, "Server error")
    ensures id.WellFormedId? && !HasCourse(old(db.courses), id.id) ==> r == Fail(NotFound, "Course not found")
    ensures id.WellFormedId? && HasCourse(old(db.courses), id.id) && Count(old(db.feedback), AboutCourse(id.id)) > 0
            ==> r == Fail(BadRequest, "Cannot delete course with existing feedback. Deactivate it instead.")
    ensures r.Ok? <==> id.WellFormedId? && HasCourse(old(db.courses), id.id)
                       && Count(old(db.feedback), AboutCourse(id.id)) == 0
    ensures r.Fail? ==> db.courses == old(db.courses)
    ensures r.Ok? ==> r == Ok(200, "Course deleted successfully")
                      && db.courses == Filter(old(db.courses), CourseIdIsNot(id.id))
    ensures db.users == old(db.users) && db.feedback == old(db.feedback) && db.nextId == old(db.nextId)
  {
    if id.CastFailure? {
      return Fail(ServerError, "Server error");
    }
    var found := IndexWhere(db.courses, CourseIdIs(id.id));
    if found.None? {
      return Fail(NotFound, "Course not found");
    }
    assert db.courses[found.value].id == id.id;
    if Count(db.feedback, AboutCourse(id.id)) > 0 {
      return Fail(BadRequest, "Cannot delete course with existing feedback. Deactivate it instead.");
    }
    assert Filter(db.feedback, AboutCourse(id.id)) == [];
    forall i | 0 <= i < |db.feedback| ensures db.feedback[i].course != id.id {
      assert db.feedback[i] !in Filter(db.feedback, AboutCourse(id.id));
    }
    db.DeleteCourse(id.id);
    r := Ok(200, "Course deleted successfully");
  }

  /** A course no record refers to is deleted alone: one course fewer, and
      every other course is kept. */
  lemma CourseDeletionMeaning(courses: seq<Course>, id: Id)
    requires CoursesUnique(courses) && HasCourse(courses, id)
    ensures |Filter(courses, CourseIdIsNot(id))| == |courses| - 1
    ensures forall i :: 0 <= i < |courses| && courses[i].id != id ==> courses[i] in Filter(courses, CourseIdIsNot(id))
    ensures !HasCourse(Filter(courses, CourseIdIsNot(id)), id)
  {
    FilterComplement(courses, CourseIdIsNot(id), CourseIdIs(id));
    FilterAtMostOne(courses, CourseIdIs(id), DistinctCourses);
    var i :| 0 <= i < |courses| && courses[i].id == id;
    assert courses[i] in Filter(courses, CourseIdIs(id));
  }
}
