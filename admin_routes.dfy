/** The admin routes that list, export and change records: the filtered
    feedback listing, the CSV export, the student list, blocking and deleting
    a student, and listing, creating, updating and deleting courses. Every
    route sits behind `protect` and `adminOnly`. */
module AdminRoutes {
  import opened Common
  import opened Text
  import opened Seqs
  import opened Sorting
  import opened Models
  import opened Store
  import opened Validators
  import opened Pagination
  import opened Stats
  import opened Csv

  // ---------------------------------------------------------------- filters

  /** One condition of a `find` filter: equality, or a `createdAt` range with
      `$gte` and `$lte` each present or not. */
  datatype Condition = Equals(value: int) | Between(from: Option<DateTime>, to: Option<DateTime>)

  /** A `find` filter: field name to condition. */
  type Query = map<string, Condition>

  /** An optional `isISO8601()` date query parameter. */
  datatype DateParam = NoDate | GivenDate(t: DateTime) | BadDate

  predicate EqualsValue(q: Query, key: string, v: int) {
    key in q ==> q[key].Equals? && q[key].value == v
  }

  predicate InRange(q: Query, t: DateTime) {
    "createdAt" in q ==>
      && q["createdAt"].Between?
      && (q["createdAt"].from.Some? ==> Ticks(t) >= Ticks(q["createdAt"].from.value))
      && (q["createdAt"].to.Some? ==> Ticks(t) <= Ticks(q["createdAt"].to.value))
  }

  /** What the store does with a filter: a record matches when it meets every condition. */
  predicate Satisfies(q: Query, f: Feedback) {
    EqualsValue(q, "course", f.course) && EqualsValue(q, "student", f.student)
    && EqualsValue(q, "rating", f.rating) && InRange(q, f.createdAt)
  }

  function Matching(q: Query): Feedback -> bool { (f: Feedback) => Satisfies(q, f) }

  /** The listing's and the export's common query validators. */
  predicate FilterParamsValid(course: IdParam, student: IdParam, rating: IntParam) {
    !course.BadId? && !student.BadId? && rating.OptionalIntIn(1, 5)
  }

  /** `filter.course`, `filter.student`, `filter.rating`, each set only when
      its parameter is given. */
  function BaseFilter(course: IdParam, student: IdParam, rating: IntParam): Query {
    var q0: Query := map[];
    var q1 := if course.GivenId? then q0["course" := Equals(course.id)] else q0;
    var q2 := if student.GivenId? then q1["student" := Equals(student.id)] else q1;
    if rating.Int? then q2["rating" := Equals(rating.n)] else q2
  }

  /** The filter holds exactly the keys of the parameters supplied, and a
      record matches it exactly when it agrees with each one. */
  lemma BaseFilterMeaning(course: IdParam, student: IdParam, rating: IntParam, f: Feedback)
    ensures var q := BaseFilter(course, student, rating);
            && ("course" in q <==> course.GivenId?) && ("student" in q <==> student.GivenId?)
            && ("rating" in q <==> rating.Int?) && "createdAt" !in q
            && (forall k :: k in q ==> k == "course" || k == "student" || k == "rating")
    ensures Satisfies(BaseFilter(course, student, rating), f) <==>
              && (course.GivenId? ==> f.course == course.id)
              && (student.GivenId? ==> f.student == student.id)
              && (rating.Int? ==> f.rating == rating.n)
  {
  }

  /** The export's filter: the common one, plus a `createdAt` range when a
      start or an end date is given, with `$gte` only for a start and `$lte`
      only for an end. */
  function ExportFilter(course: IdParam, student: IdParam, rating: IntParam, start: DateParam, end: DateParam): Query {
    var q := BaseFilter(course, student, rating);
    if start.GivenDate? || end.GivenDate? then
      q["createdAt" := Between(if start.GivenDate? then Some(start.t) else None,
                               if end.GivenDate? then Some(end.t) else None)]
    else q
  }

  /** An exported record is one that agrees with each supplied parameter and
      lies within the inclusive date range, each bound applying only when given. */
  lemma ExportFilterMeaning(course: IdParam, student: IdParam, rating: IntParam, start: DateParam, end: DateParam, f: Feedback)
    ensures var q := ExportFilter(course, student, rating, start, end);
            && ("createdAt" in q <==> start.GivenDate? || end.GivenDate?)
            && ("createdAt" in q ==> (q["createdAt"].from.Some? <==> start.GivenDate?) && (q["createdAt"].to.Some? <==> end.GivenDate?))
    ensures Satisfies(ExportFilter(course, student, rating, start, end), f) <==>
              && (course.GivenId? ==> f.course == course.id)
              && (student.GivenId? ==> f.student == student.id)
              && (rating.Int? ==> f.rating == rating.n)
              && (start.GivenDate? ==> Ticks(f.createdAt) >= Ticks(start.t))
              && (end.GivenDate? ==> Ticks(f.createdAt) <= Ticks(end.t))
  {
    BaseFilterMeaning(course, student, rating, f);
  }

  // ---------------------------------------------------------------- GET /api/admin/feedback

  /** The matching records, newest first, before paging. */
  function Matches(fs: seq<Feedback>, q: Query): seq<Feedback> {
    Sort(Filter(fs, Matching(q)), NewestFirst())
  }

  lemma MatchesMeaning(fs: seq<Feedback>, q: Query)
    ensures SortedBy(Matches(fs, q), NewestFirst())
    ensures multiset(Matches(fs, q)) == multiset(Filter(fs, Matching(q)))
    ensures forall i :: 0 <= i < |Matches(fs, q)| ==> Matches(fs, q)[i] in fs && Satisfies(q, Matches(fs, q)[i])
  {
    var m := Filter(fs, Matching(q));
    NumberOrdersAreTotal((f: Feedback) => Ticks(f.createdAt), (f: Feedback) => 0.0);
    SortSorted(m, NewestFirst());
    var s := Matches(fs, q);
    forall i | 0 <= i < |s| ensures s[i] in fs && Satisfies(q, s[i]) {
      assert s[i] in multiset(s);
      var k :| 0 <= k < |m| && m[k] == s[i];
      assert Matching(q)(m[k]);
    }
  }

  /** All feedback matching the course, student and rating given, newest
      first, one page of it; `limit` is 1..100 and defaults to 20. Dates play
      no part here. */
  function FeedbackList(fs: seq<Feedback>, page: IntParam, limit: IntParam,
                        course: IdParam, student: IdParam, rating: IntParam): (r: Response<Listing<Feedback>>)
    ensures r.Fail? <==> PageRequest(page, limit, 20, 100).None? || !FilterParamsValid(course, student, rating)
    ensures r.Fail? ==> r == Fail(BadRequest, "Validation failed")
    ensures r.Ok? ==> r.status == 200 && SortedBy(r.body.items, NewestFirst())
    ensures r.Ok? ==> forall i :: 0 <= i < |r.body.items| ==>
              r.body.items[i] in fs && Satisfies(BaseFilter(course, student, rating), r.body.items[i])
    ensures r.Ok? ==> var (p, l) := PageRequest(page, limit, 20, 100).value;
              var q := BaseFilter(course, student, rating);
              && r.body.items == Window(Matches(fs, q), p, l)
              && r.body.pagination == Paginate(p, l, Count(fs, Matching(q)))
  {
    match PageRequest(page, limit, 20, 100)
    case None => Fail(BadRequest, "Validation failed")
    case Some((p, l)) =>
      if !FilterParamsValid(course, student, rating) then Fail(BadRequest, "Validation failed")
      else
        var q := BaseFilter(course, student, rating);
        var s := Matches(fs, q);
        MatchesMeaning(fs, q);
        WindowKeepsOrder(s, p, l, NewestFirst());
        WindowKeeps(s, p, l, (f: Feedback) => f in fs && Satisfies(q, f));
        Ok(200, Listing(Window(s, p, l), Paginate(p, l, Count(fs, Matching(q)))))
  }

  /** Every matching record is on one of the pages, whatever the limit. */
  lemma EveryMatchIsListed(fs: seq<Feedback>, course: IdParam, student: IdParam, rating: IntParam,
                           f: Feedback, limit: int)
    requires FilterParamsValid(course, student, rating) && 1 <= limit <= 100
    requires f in fs && Satisfies(BaseFilter(course, student, rating), f)
    ensures exists page :: 1 <= page <= PageCount(Count(fs, Matching(BaseFilter(course, student, rating))), limit)
              && f in FeedbackList(fs, Int(page), Int(limit), course, student, rating).body.items
  {
    var q := BaseFilter(course, student, rating);
    var s := Matches(fs, q);
    assert f in s by {
      MatchesMeaning(fs, q);
      assert Matching(q)(f);
      assert f in Filter(fs, Matching(q));
      assert f in multiset(s);
    }
    var i :| 0 <= i < |s| && s[i] == f;
    MatchOnItsPage(fs, course, student, rating, limit, i);
  }

  lemma MatchOnItsPage(fs: seq<Feedback>, course: IdParam, student: IdParam, rating: IntParam, limit: int, i: int)
    requires FilterParamsValid(course, student, rating) && 1 <= limit <= 100
    requires 0 <= i < |Matches(fs, BaseFilter(course, student, rating))|
    ensures 1 <= i / limit + 1 <= PageCount(Count(fs, Matching(BaseFilter(course, student, rating))), limit)
    ensures Matches(fs, BaseFilter(course, student, rating))[i] in
              FeedbackList(fs, Int(i / limit + 1), Int(limit), course, student, rating).body.items
  {
    var s := Matches(fs, BaseFilter(course, student, rating));
    RecordOnItsPage(s, limit, i);
    var page := i / limit + 1;
    assert PageRequest(Int(page), Int(limit), 20, 100) == Some((page, limit));
  }

  // ---------------------------------------------------------------- GET /api/admin/feedback/export

  /** The export's query validators. */
  predicate ExportParamsValid(course: IdParam, student: IdParam, rating: IntParam, start: DateParam, end: DateParam) {
    FilterParamsValid(course, student, rating) && !start.BadDate? && !end.BadDate?
  }

  /** `populate("student")`: the user with that `_id`, if any. */
  function UserFor(users: seq<User>, id: Id): Option<User> {
    match IndexWhere(users, UserIdIs(id))
    case None => None
    case Some(j) => Some(users[j])
  }

  /** `populate("course")`: the course with that `_id`, if any. */
  function CourseWith(courses: seq<Course>, id: Id): Option<Course> {
    match IndexWhere(courses, CourseIdIs(id))
    case None => None
    case Some(j) => Some(courses[j])
  }

  /** Each record with its student and course, in order; `None` when a
      record's student or course is gone (reading a field of the missing
      document throws). */
  function Rows(users: seq<User>, courses: seq<Course>, rs: seq<Feedback>): (r: Option<seq<(Feedback, User, Course)>>)
    ensures r.Some? ==> |r.value| == |rs|
    ensures r.Some? ==> forall i :: 0 <= i < |rs| ==> r.value[i].0 == rs[i]
  {
    if rs == [] then Some([])
    else
      match (UserFor(users, rs[0].student), CourseWith(courses, rs[0].course), Rows(users, courses, rs[1..]))
      case (Some(u), Some(c), Some(rest)) => Some([(rs[0], u, c)] + rest)
      case _ => None
  }

  /** Each record is joined with its own student and course. */
  lemma {:induction false} RowsMeaning(users: seq<User>, courses: seq<Course>, rs: seq<Feedback>, i: nat)
    requires Rows(users, courses, rs).Some? && i < |rs|
    ensures UserFor(users, rs[i].student).Some? && CourseWith(courses, rs[i].course).Some?
    ensures Rows(users, courses, rs).value[i] ==
              (rs[i], UserFor(users, rs[i].student).value, CourseWith(courses, rs[i].course).value)
  {
    if i > 0 {
      RowsMeaning(users, courses, rs[1..], i - 1);
    }
  }

  /** When every record's student and course exist, the rows are built. */
  lemma {:induction false} RowsBuilt(users: seq<User>, courses: seq<Course>, rs: seq<Feedback>)
    requires forall i :: 0 <= i < |rs| ==> HasStudent(users, rs[i].student) && HasCourse(courses, rs[i].course)
    ensures Rows(users, courses, rs).Some?
  {
    if rs != [] {
      assert forall i :: 0 <= i < |rs[1..]| ==> rs[1..][i] == rs[i + 1];
      RowsBuilt(users, courses, rs[1..]);
      assert HasStudent(users, rs[0].student) && HasCourse(courses, rs[0].course);
      var j :| 0 <= j < |users| && users[j].id == rs[0].student && users[j].role == Student;
      assert UserIdIs(rs[0].student)(users[j]);
      var m :| 0 <= m < |courses| && courses[m].id == rs[0].course;
      assert CourseIdIs(rs[0].course)(courses[m]);
    }
  }

  /** In a consistent store every record's student and course exist, so
      the rows are always built. */
  lemma RowsExist(users: seq<User>, courses: seq<Course>, fs: seq<Feedback>, rs: seq<Feedback>)
    requires Consistent(users, courses, fs)
    requires forall i :: 0 <= i < |rs| ==> rs[i] in fs
    ensures Rows(users, courses, rs).Some?
  {
    forall i | 0 <= i < |rs| ensures HasStudent(users, rs[i].student) && HasCourse(courses, rs[i].course) {
      assert rs[i] in fs;
      var k :| 0 <= k < |fs| && fs[k] == rs[i];
      assert HasStudent(users, fs[k].student) && HasCourse(courses, fs[k].course);
    }
    RowsBuilt(users, courses, rs);
  }

  /** The CSV lines of the rows. */
  function Lines(rows: seq<(Feedback, User, Course)>): (r: seq<string>)
    requires forall i :: 0 <= i < |rows| ==> ValidDateTime(rows[i].0.createdAt)
    ensures |r| == |rows| && forall i :: 0 <= i < |rows| ==> r[i] == Line(rows[i].0, rows[i].1, rows[i].2)
  {
    seq(|rows|, i requires 0 <= i < |rows| => Line(rows[i].0, rows[i].1, rows[i].2))
  }

  /** The export: header, then one line per matching record, newest first,
      with no paging; 400 on a bad parameter. */
  function Export(users: seq<User>, courses: seq<Course>, fs: seq<Feedback>,
                  course: IdParam, student: IdParam, rating: IntParam, start: DateParam, end: DateParam): (r: Response<string>)
    requires Consistent(users, courses, fs)
    ensures r.Fail? <==> !ExportParamsValid(course, student, rating, start, end)
    ensures r.Fail? ==> r == Fail(BadRequest, "Validation failed")
    ensures r.Ok? ==> r.status == 200 && Rows(users, courses, ExportOrder(fs, course, student, rating, start, end)).Some?
  {
    if !ExportParamsValid(course, student, rating, start, end) then Fail(BadRequest, "Validation failed")
    else
      var rs := ExportOrder(fs, course, student, rating, start, end);
      ExportOrderValid(users, courses, fs, course, student, rating, start, end);
      match Rows(users, courses, rs)
      case Some(rows) => Ok(200, Document(Lines(rows)))
      case None => Fail(ServerError, "Server error during export")
  }

  /** The records exported, newest first. */
  function ExportOrder(fs: seq<Feedback>, course: IdParam, student: IdParam, rating: IntParam,
                       start: DateParam, end: DateParam): seq<Feedback> {
    Matches(fs, ExportFilter(course, student, rating, start, end))
  }

  lemma ExportOrderValid(users: seq<User>, courses: seq<Course>, fs: seq<Feedback>,
                         course: IdParam, student: IdParam, rating: IntParam, start: DateParam, end: DateParam)
    requires Consistent(users, courses, fs)
    ensures var rs := ExportOrder(fs, course, student, rating, start, end);
            && Rows(users, courses, rs).Some?
            && forall i :: 0 <= i < |rs| ==> ValidDateTime(rs[i].createdAt)
  {
    var rs := ExportOrder(fs, course, student, rating, start, end);
    MatchesMeaning(fs, ExportFilter(course, student, rating, start, end));
    RowsExist(users, courses, fs, rs);
  }

  /** The exported document is the header followed by the line of the
      `i`-th newest matching record, with its own student and course, for
      each `i`. */
  lemma ExportMeaning(users: seq<User>, courses: seq<Course>, fs: seq<Feedback>,
                      course: IdParam, student: IdParam, rating: IntParam, start: DateParam, end: DateParam)
    requires Consistent(users, courses, fs) && ExportParamsValid(course, student, rating, start, end)
    ensures var rs := ExportOrder(fs, course, student, rating, start, end);
            && Rows(users, courses, rs).Some?
            && (forall i :: 0 <= i < |rs| ==> ValidDateTime(rs[i].createdAt))
            && Export(users, courses, fs, course, student, rating, start, end).body
               == Document(Lines(Rows(users, courses, rs).value))
            && (forall i :: 0 <= i < |rs| ==> rs[i] in fs && Satisfies(ExportFilter(course, student, rating, start, end), rs[i]))
            && SortedBy(rs, NewestFirst())
  {
    ExportOrderValid(users, courses, fs, course, student, rating, start, end);
    MatchesMeaning(fs, ExportFilter(course, student, rating, start, end));
  }
}
