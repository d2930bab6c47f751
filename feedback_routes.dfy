/** The student feedback routes: submit feedback, list one's own feedback,
    update and delete one's own feedback, and list the courses open for
    feedback. `me` is the user the authentication middleware attached to the
    request; every route answers 403 when that user is not a student. */
module FeedbackRoutes {
  import opened Common
  import opened Text
  import opened Seqs
  import opened Sorting
  import opened Models
  import opened Store
  import opened Validators
  import opened Pagination
  import opened Stats

  /** `{ _id: id, isActive: true }` on courses */
  function ActiveCourseIdIs(id: Id): Course -> bool { (c: Course) => c.id == id && c.isActive }

  /** `{ _id: id, student: student }` on feedback */
  function OwnedFeedbackIs(id: Id, student: Id): Feedback -> bool {
    (f: Feedback) => f.id == id && f.student == student
  }

  predicate HasActiveCourse(courses: seq<Course>, id: Id) {
    exists i :: 0 <= i < |courses| && courses[i].id == id && courses[i].isActive
  }

  /** The student already has feedback for the course. */
  predicate PairTaken(fs: seq<Feedback>, student: Id, course: Id) {
    exists i :: 0 <= i < |fs| && fs[i].student == student && fs[i].course == course
  }

  /** The feedback with `_id` `id` exists and belongs to `student`. */
  predicate Owns(fs: seq<Feedback>, student: Id, id: Id) {
    exists i :: 0 <= i < |fs| && fs[i].id == id && fs[i].student == student
  }

  lemma MeIsStored(users: seq<User>, me: User)
    requires me in users && me.role == Student
    ensures HasStudent(users, me.id)
  {
    var i :| 0 <= i < |users| && users[i] == me;
  }

  // ---------------------------------------------------------------- POST /api/feedback

  /** The body validators of a submission: a well-formed course id, an
      integer rating in 1..5, and a message of 10..1000 characters once trimmed. */
  predicate SubmitInputValid(course: IdParam, rating: IntParam, message: string) {
    course.GivenId? && rating.RequiredIntIn(1, 5) && TrimmedLengthIn(message, 10, 1000)
  }

  /** Submitting feedback: the checks run in the order validation, role,
      active course, existing pair; each failure leaves the store as it was,
      and success appends one record with the trimmed message. */
  method Submit(db: Db, me: User, course: IdParam, rating: IntParam, message: string, now: DateTime)
    returns (r: Response<Feedback>)
    requires db.Valid() && me in db.users && ValidDateTime(now)
    modifies db
    ensures db.Valid()
    ensures !SubmitInputValid(course, rating, message) ==> r == Fail(BadRequest, "Validation failed")
    ensures SubmitInputValid(course, rating, message) && me.role != Student ==>
              r == Fail(Forbidden, "Only students can submit feedback")
    ensures SubmitInputValid(course, rating, message) && me.role == Student
            && !HasActiveCourse(old(db.courses), course.id) ==>
              r == Fail(NotFound, "Course not found or inactive")
    ensures SubmitInputValid(course, rating, message) && me.role == Student
            && HasActiveCourse(old(db.courses), course.id) && PairTaken(old(db.feedback), me.id, course.id) ==>
              r == Fail(BadRequest, "You have already submitted feedback for this course")
    ensures r.Fail? ==> db.users == old(db.users) && db.courses == old(db.courses)
                        && db.feedback == old(db.feedback) && db.nextId == old(db.nextId)
    ensures r.Ok? <==> SubmitInputValid(course, rating, message) && me.role == Student
                       && HasActiveCourse(old(db.courses), course.id) && !PairTaken(old(db.feedback), me.id, course.id)
    ensures r.Ok? ==> r.status == 201
    ensures r.Ok? ==> r.body == Feedback(old(db.nextId), me.id, course.id, rating.n, Trim(message), now, now)
    ensures r.Ok? ==> db.feedback == old(db.feedback) + [r.body] && db.nextId == old(db.nextId) + 1
    ensures r.Ok? ==> db.users == old(db.users) && db.courses == old(db.courses)
  {
    if !SubmitInputValid(course, rating, message) {
      return Fail(BadRequest, "Validation failed");
    }
    if me.role != Student {
      return Fail(Forbidden, "Only students can submit feedback");
    }
    var found := IndexWhere(db.courses, ActiveCourseIdIs(course.id));
    if found.None? {
      assert !HasActiveCourse(db.courses, course.id) by {
        forall j | 0 <= j < |db.courses| ensures !(db.courses[j].id == course.id && db.courses[j].isActive) {
          assert !ActiveCourseIdIs(course.id)(db.courses[j]);
        }
      }
      return Fail(NotFound, "Course not found or inactive");
    }
    assert HasActiveCourse(db.courses, course.id) by {
      assert ActiveCourseIdIs(course.id)(db.courses[found.value]);
    }
    var existing := IndexWhere(db.feedback, PairIs(me.id, course.id));
    if existing.Some? {
      assert PairIs(me.id, course.id)(db.feedback[existing.value]);
      return Fail(BadRequest, "You have already submitted feedback for this course");
    }
    assert !PairTaken(db.feedback, me.id, course.id) by {
      forall j | 0 <= j < |db.feedback| ensures !(db.feedback[j].student == me.id && db.feedback[j].course == course.id) {
        assert !PairIs(me.id, course.id)(db.feedback[j]);
      }
    }
    r := Record(db, me, course.id, rating.n, message, now);
  }

  /** The write at the end of a submission that passed every check. */
  method Record(db: Db, me: User, course: Id, rating: int, message: string, now: DateTime)
    returns (r: Response<Feedback>)
    requires db.Valid() && me in db.users && me.role == Student && ValidDateTime(now)
    requires 1 <= rating <= 5 && TrimmedLengthIn(message, 10, 1000)
    requires HasActiveCourse(db.courses, course) && !PairTaken(db.feedback, me.id, course)
    modifies db
    ensures db.Valid()
    ensures r == Ok(201, Feedback(old(db.nextId), me.id, course, rating, Trim(message), now, now))
    ensures db.feedback == old(db.feedback) + [r.body] && db.nextId == old(db.nextId) + 1
    ensures db.users == old(db.users) && db.courses == old(db.courses)
  {
    TrimmedLengthFitsSchema(message, 10, 1000);
    MeIsStored(db.users, me);
    var f := Feedback(db.nextId, me.id, course, rating, Trim(message), now, now);
    db.InsertFeedback(f);
    r := Ok(201, f);
  }

  /** The unique index on `(student, course)`: a store that keeps it has at
      most one feedback per student and course. */
  lemma OnePerPair(fs: seq<Feedback>, student: Id, course: Id)
    requires FeedbackUnique(fs)
    ensures Count(fs, PairIs(student, course)) <= 1
  {
    FilterAtMostOne(fs, PairIs(student, course), DistinctFeedback);
  }

  // ---------------------------------------------------------------- GET /api/feedback/my-feedback

  /** The student's feedback, newest first, before paging. */
  function MyFeedbackOrder(fs: seq<Feedback>, student: Id): seq<Feedback> {
    Sort(Filter(fs, ByStudent(student)), NewestFirst())
  }

  lemma MyFeedbackOrderMeaning(fs: seq<Feedback>, student: Id)
    ensures SortedBy(MyFeedbackOrder(fs, student), NewestFirst())
    ensures multiset(MyFeedbackOrder(fs, student)) == multiset(Filter(fs, ByStudent(student)))
    ensures forall i :: 0 <= i < |MyFeedbackOrder(fs, student)| ==>
              MyFeedbackOrder(fs, student)[i] in fs && MyFeedbackOrder(fs, student)[i].student == student
  {
    var mine := Filter(fs, ByStudent(student));
    NumberOrdersAreTotal((f: Feedback) => Ticks(f.createdAt), (f: Feedback) => 0.0);
    SortSorted(mine, NewestFirst());
    var s := MyFeedbackOrder(fs, student);
    forall i | 0 <= i < |s| ensures s[i] in fs && s[i].student == student {
      assert s[i] in multiset(s);
      var k :| 0 <= k < |mine| && mine[k] == s[i];
    }
  }

  /** A student's own feedback, newest first, one page of it, with the
      page count; `limit` is 1..50 and defaults to 10, `page` defaults to 1. */
  function MyFeedback(fs: seq<Feedback>, me: User, page: IntParam, limit: IntParam): (r: Response<Listing<Feedback>>)
    ensures PageRequest(page, limit, 10, 50).None? ==> r == Fail(BadRequest, "Validation failed")
    ensures PageRequest(page, limit, 10, 50).Some? && me.role != Student ==>
              r == Fail(Forbidden, "Only students can view their feedback")
    ensures r.Ok? <==> PageRequest(page, limit, 10, 50).Some? && me.role == Student
    ensures r.Ok? ==> forall i :: 0 <= i < |r.body.items| ==>
              r.body.items[i] in fs && r.body.items[i].student == me.id
    ensures r.Ok? ==> SortedBy(r.body.items, NewestFirst())
    ensures r.Ok? ==> var (p, l) := PageRequest(page, limit, 10, 50).value;
              && r.body.items == Window(MyFeedbackOrder(fs, me.id), p, l)
              && r.body.pagination == Paginate(p, l, Count(fs, ByStudent(me.id)))
  {
    match PageRequest(page, limit, 10, 50)
    case None => Fail(BadRequest, "Validation failed")
    case Some((p, l)) =>
      if me.role != Student then Fail(Forbidden, "Only students can view their feedback")
      else
        var mine := MyFeedbackOrder(fs, me.id);
        MyFeedbackOrderMeaning(fs, me.id);
        WindowKeepsOrder(mine, p, l, NewestFirst());
        WindowKeeps(mine, p, l, (f: Feedback) => f in fs && f.student == me.id);
        Ok(200, Listing(Window(mine, p, l), Paginate(p, l, Count(fs, ByStudent(me.id)))))
  }

  /** Every feedback the student wrote is on one of the pages, whatever the limit. */
  lemma EveryOwnFeedbackIsListed(fs: seq<Feedback>, me: User, f: Feedback, limit: int)
    requires me.role == Student && f in fs && f.student == me.id && 1 <= limit <= 50
    ensures exists page :: 1 <= page <= PageCount(Count(fs, ByStudent(me.id)), limit)
              && f in MyFeedback(fs, me, Int(page), Int(limit)).body.items
  {
    var mine := MyFeedbackOrder(fs, me.id);
    assert f in mine by {
      MyFeedbackOrderMeaning(fs, me.id);
      var j :| 0 <= j < |fs| && fs[j] == f;
      assert f in Filter(fs, ByStudent(me.id));
      assert f in multiset(mine);
    }
    var i :| 0 <= i < |mine| && mine[i] == f;
    OwnFeedbackOnItsPage(fs, me, limit, i);
  }

  lemma OwnFeedbackOnItsPage(fs: seq<Feedback>, me: User, limit: int, i: int)
    requires me.role == Student && 1 <= limit <= 50 && 0 <= i < |MyFeedbackOrder(fs, me.id)|
    ensures 1 <= i / limit + 1 <= PageCount(Count(fs, ByStudent(me.id)), limit)
    ensures MyFeedbackOrder(fs, me.id)[i] in MyFeedback(fs, me, Int(i / limit + 1), Int(limit)).body.items
  {
    var mine := MyFeedbackOrder(fs, me.id);
    RecordOnItsPage(mine, limit, i);
    var page := i / limit + 1;
    assert PageRequest(Int(page), Int(limit), 10, 50) == Some((page, limit));
  }

  // ---------------------------------------------------------------- PUT /api/feedback/:id

  /** The body validators of an update: each field is optional, but a
      given rating is an integer in 1..5 and a given message has 10..1000
      characters once trimmed. */
  predicate UpdateInputValid(rating: IntParam, message: Option<string>) {
    rating.OptionalIntIn(1, 5) && (message.None? || TrimmedLengthIn(message.value, 10, 1000))
  }

  /** The record after the update: a given rating and a given (trimmed)
      message replace the stored ones, everything else stays, and the
      timestamps plugin sets `updatedAt`. */
  function Patched(f: Feedback, rating: IntParam, message: Option<string>, now: DateTime): (g: Feedback)
    ensures g.id == f.id && g.student == f.student && g.course == f.course && g.createdAt == f.createdAt
  {
    f.(rating := if rating.Int? then rating.n else f.rating,
       message := if message.Some? then Trim(message.value) else f.message,
       updatedAt := now)
  }

  /** A patched record still satisfies the feedback schema. */
  lemma PatchedStaysValid(f: Feedback, rating: IntParam, message: Option<string>, now: DateTime)
    requires ValidFeedback(f) && UpdateInputValid(rating, message) && ValidDateTime(now)
    ensures ValidFeedback(Patched(f, rating, message, now))
  {
    if message.Some? {
      TrimmedLengthFitsSchema(message.value, 10, 1000);
    }
  }

  /** `findByIdAndUpdate(id, ...)` on the whole table: the record with `_id`
      `id` is patched, every other record stays. */
  function PatchWhere(fs: seq<Feedback>, id: Id, rating: IntParam, message: Option<string>, now: DateTime): (r: seq<Feedback>)
    ensures |r| == |fs|
  {
    seq(|fs|, i requires 0 <= i < |fs| =>
      if fs[i].id == id then Patched(fs[i], rating, message, now) else fs[i])
  }

  /** With unique `_id`s, patching by `_id` replaces exactly one position. */
  lemma PatchWhereReplacesOne(fs: seq<Feedback>, k: nat, rating: IntParam, message: Option<string>, now: DateTime)
    requires FeedbackUnique(fs) && k < |fs|
    ensures PatchWhere(fs, fs[k].id, rating, message, now) == fs[k := Patched(fs[k], rating, message, now)]
  {
    forall i | 0 <= i < |fs| && i != k ensures fs[i].id != fs[k].id {
      if i < k {
        assert DistinctFeedback(fs[i], fs[k]);
      } else {
        assert DistinctFeedback(fs[k], fs[i]);
      }
    }
  }

  /** Updating one's own feedback: validation, role, the id's cast, then
      ownership; only the caller's record with that `_id` changes. */
  method Update(db: Db, me: User, id: PathId, rating: IntParam, message: Option<string>, now: DateTime)
    returns (r: Response<Feedback>)
    requires db.Valid() && me in db.users && ValidDateTime(now)
    modifies db
    ensures db.Valid()
    ensures !UpdateInputValid(rating, message) ==> r == Fail(BadRequest, "Validation failed")
    ensures UpdateInputValid(rating, message) && me.role != Student ==>
              r == Fail(Forbidden, "Only students can update feedback")
    ensures UpdateInputValid(rating, message) && me.role == Student && id.CastFailure? ==>
              r == Fail(ServerError, "Server error")
    ensures UpdateInputValid(rating, message) && me.role == Student && id.WellFormedId?
            && !Owns(old(db.feedback), me.id, id.id) ==>
              r == Fail(NotFound, "Feedback not found or you don't have permission to update it")
    ensures r.Ok? <==> UpdateInputValid(rating, message) && me.role == Student && id.WellFormedId?
                       && Owns(old(db.feedback), me.id, id.id)
    ensures r.Fail? ==> db.users == old(db.users) && db.courses == old(db.courses)
                        && db.feedback == old(db.feedback) && db.nextId == old(db.nextId)
    ensures r.Ok? ==> r.status == 200 && r.body.id == id.id && r.body.student == me.id && r.body in db.feedback
    ensures r.Ok? ==> exists k :: 0 <= k < |old(db.feedback)| && old(db.feedback)[k].id == id.id
                                  && r.body == Patched(old(db.feedback)[k], rating, message, now)
    ensures r.Ok? ==> db.feedback == PatchWhere(old(db.feedback), id.id, rating, message, now)
    ensures r.Ok? ==> db.users == old(db.users) && db.courses == old(db.courses) && db.nextId == old(db.nextId)
  {
    if !UpdateInputValid(rating, message) {
      return Fail(BadRequest, "Validation failed");
    }
    if me.role != Student {
      return Fail(Forbidden, "Only students can update feedback");
    }
    if id.CastFailure? {
      return Fail(ServerError, "Server error");
    }
    var found := IndexWhere(db.feedback, OwnedFeedbackIs(id.id, me.id));
    if found.None? {
      return Fail(NotFound, "Feedback not found or you don't have permission to update it");
    }
    var k := found.value;
    var f := db.feedback[k];
    // updateData: only the truthy fields
    var newRating := f.rating;
    if rating.Int? && rating.n != 0 {
      newRating := rating.n;
    }
    var newMessage := f.message;
    if message.Some? && Trim(message.value) != [] {
      newMessage := Trim(message.value);
    }
    if message.Some? {
      TrimmedLengthFitsSchema(message.value, 10, 1000);
    }
    var g := f.(rating := newRating, message := newMessage, updatedAt := now);
    assert g == Patched(f, rating, message, now);
    PatchedStaysValid(f, rating, message, now);
    PatchWhereReplacesOne(db.feedback, k, rating, message, now);
    ghost var before := db.feedback;
    db.ReplaceFeedbackAt(k, g);
    assert db.feedback == before[k := g] && db.feedback[k] == g;
    r := Ok(200, g);
  }

  // ---------------------------------------------------------------- DELETE /api/feedback/:id

  /** Deleting one's own feedback: role, the id's cast, then ownership. */
  method Delete(db: Db, me: User, id: PathId) returns (r: Response<()>)
    requires db.Valid() && me in db.users
    modifies db
    ensures db.Valid()
    ensures me.role != Student ==> r == Fail(Forbidden, "Only students can delete feedback")
    ensures me.role == Student && id.CastFailure? ==> r == Fail(ServerError, "Server error")
    ensures me.role == Student && id.WellFormedId? && !Owns(old(db.feedback), me.id, id.id) ==>
              r == Fail(NotFound, "Feedback not found or you don't have permission to delete it")
    ensures r.Ok? <==> me.role == Student && id.WellFormedId? && Owns(old(db.feedback), me.id, id.id)
    ensures r.Fail? ==> db.users == old(db.users) && db.courses == old(db.courses)
                        && db.feedback == old(db.feedback) && db.nextId == old(db.nextId)
    ensures r.Ok? ==> r.status == 200 && db.feedback == Filter(old(db.feedback), FeedbackIdIsNot(id.id))
    ensures r.Ok? ==> db.users == old(db.users) && db.courses == old(db.courses)
  {
    if me.role != Student {
      return Fail(Forbidden, "Only students can delete feedback");
    }
    if id.CastFailure? {
      return Fail(ServerError, "Server error");
    }
    var found := IndexWhere(db.feedback, OwnedFeedbackIs(id.id, me.id));
    if found.None? {
      return Fail(NotFound, "Feedback not found or you don't have permission to delete it");
    }
    db.KeepFeedback(FeedbackIdIsNot(id.id));
    r := Ok(200, ());
  }

  /** Deleting by `_id` removes exactly one record when that record exists,
      since `_id`s are unique, and keeps every other record. */
  lemma DeleteRemovesExactlyOne(fs: seq<Feedback>, id: Id)
    requires FeedbackUnique(fs)
    requires exists i :: 0 <= i < |fs| && fs[i].id == id
    ensures |Filter(fs, FeedbackIdIsNot(id))| == |fs| - 1
    ensures forall i :: 0 <= i < |fs| && fs[i].id != id ==> fs[i] in Filter(fs, FeedbackIdIsNot(id))
    ensures forall g :: g in Filter(fs, FeedbackIdIsNot(id)) ==> g.id != id
  {
    FilterComplement(fs, FeedbackIdIsNot(id), FeedbackIdIs(id));
    FilterAtMostOne(fs, FeedbackIdIs(id), DistinctFeedback);
    var i :| 0 <= i < |fs| && fs[i].id == id;
    assert fs[i] in Filter(fs, FeedbackIdIs(id));
    var kept := Filter(fs, FeedbackIdIsNot(id));
    forall g | g in kept ensures g.id != id {
      var j :| 0 <= j < |kept| && kept[j] == g;
    }
  }

  // ---------------------------------------------------------------- GET /api/feedback/courses

  /** An active course and whether the student already gave feedback on it. */
  datatype CourseStatus = CourseStatus(course: Course, hasSubmittedFeedback: bool)

  /** `sort({ name: 1 })` */
  function ByName(): (Course, Course) -> bool { AscendingText((c: Course) => c.name) }

  /** `{ isActive: true }` */
  function IsActive(): Course -> bool { (c: Course) => c.isActive }

  /** The courses of a marked course list, in list order. */
  function CoursesOf(st: seq<CourseStatus>): (cs: seq<Course>)
    ensures |cs| == |st| && forall i :: 0 <= i < |st| ==> cs[i] == st[i].course
  {
    seq(|st|, i requires 0 <= i < |st| => st[i].course)
  }

  /** The active courses sorted by name, each marked with whether the
      student has feedback for it. */
  function CoursesForStudent(courses: seq<Course>, fs: seq<Feedback>, me: User): (r: Response<seq<CourseStatus>>)
    ensures r.Fail? <==> me.role != Student
    ensures r.Fail? ==> r == Fail(Forbidden, "Only students can view courses")
    ensures r.Ok? ==> |r.body| == Count(courses, IsActive())
    ensures r.Ok? ==> forall c :: c in CoursesOf(r.body) <==> c in courses && c.isActive
    ensures r.Ok? ==> SortedBy(CoursesOf(r.body), ByName())
    ensures r.Ok? ==> forall i :: 0 <= i < |r.body| ==>
              (r.body[i].hasSubmittedFeedback <==> PairTaken(fs, me.id, r.body[i].course.id))
  {
    if me.role != Student then Fail(Forbidden, "Only students can view courses")
    else
      var active := Sort(Filter(courses, IsActive()), ByName());
      var mine := Filter(fs, ByStudent(me.id));
      var submitted := seq(|mine|, i requires 0 <= i < |mine| => mine[i].course);
      var statuses := seq(|active|, i requires 0 <= i < |active| => CourseStatus(active[i], active[i].id in submitted));
      ActiveCoursesByName(courses);
      SubmittedMeaning(fs, me.id);
      assert CoursesOf(statuses) == active;
      Ok(200, statuses)
  }

  lemma ActiveCoursesByName(courses: seq<Course>)
    ensures var active := Sort(Filter(courses, IsActive()), ByName());
            && SortedBy(active, ByName())
            && forall c :: c in active <==> c in courses && c.isActive
  {
    var kept := Filter(courses, IsActive());
    var active := Sort(kept, ByName());
    AscendingTextIsTotal((c: Course) => c.name);
    SortSorted(kept, ByName());
    forall c ensures c in active <==> c in courses && c.isActive {
      assert c in active <==> c in multiset(kept);
      if c in courses && c.isActive {
        var j :| 0 <= j < |courses| && courses[j] == c;
      }
    }
  }

  lemma SubmittedMeaning(fs: seq<Feedback>, student: Id)
    ensures var mine := Filter(fs, ByStudent(student));
            forall c :: c in seq(|mine|, i requires 0 <= i < |mine| => mine[i].course) <==> PairTaken(fs, student, c)
  {
    var mine := Filter(fs, ByStudent(student));
    var submitted := seq(|mine|, i requires 0 <= i < |mine| => mine[i].course);
    forall c ensures c in submitted <==> PairTaken(fs, student, c) {
      if c in submitted {
        var i :| 0 <= i < |submitted| && submitted[i] == c;
        assert mine[i] in fs;
        var j :| 0 <= j < |fs| && fs[j] == mine[i];
      }
      if PairTaken(fs, student, c) {
        var j :| 0 <= j < |fs| && fs[j].student == student && fs[j].course == c;
        assert fs[j] in mine;
        var i :| 0 <= i < |mine| && mine[i] == fs[j];
        assert submitted[i] == c;
      }
    }
  }
}
