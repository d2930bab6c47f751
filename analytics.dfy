/** The admin analytics (`GET /api/admin/analytics`): monthly trends and
    rating trends over the last twelve months, per-course performance with
    its rating distribution, the ten most engaged students, and per-instructor
    performance. The route only reads the store; the current time `now` is a
    parameter. */
module Analytics {
  import opened Common
  import opened Seqs
  import opened Sorting
  import opened Grouping
  import opened Models
  import opened Stats
  import opened Dashboard

  // ---------------------------------------------------------------- months

  /** The `{ year, month }` of a `$group` on `$year`/`$month` of `createdAt`. */
  datatype Month = Month(year: int, month: int)

  function MonthOf(): Feedback -> Month { (f: Feedback) => Month(f.createdAt.year, f.createdAt.month) }

  /** Position of a month on the calendar. */
  function MonthIndex(): Month -> int { (m: Month) => m.year * 12 + m.month }

  /** `$sort: { "_id.year": 1, "_id.month": 1 }` */
  function Chronological(): (Month, Month) -> bool { Ascending(MonthIndex()) }

  /** Two calendar months with the same position are the same month. */
  lemma MonthIndexInjective(a: Month, b: Month)
    requires 1 <= a.month <= 12 && 1 <= b.month <= 12
    requires MonthIndex()(a) == MonthIndex()(b)
    ensures a == b
  {
    assert (a.year - b.year) * 12 == b.month - a.month;
  }

  /** `$match: { createdAt: { $gte: start } }` */
  function Since(start: DateTime): Feedback -> bool { (f: Feedback) => Ticks(f.createdAt) >= Ticks(start) }

  /** The records of the last twelve months. */
  function LastYear(fs: seq<Feedback>, now: DateTime): seq<Feedback>
    requires ValidDateTime(now) && now.year >= 1
  {
    Filter(fs, Since(TwelveMonthsBefore(now)))
  }

  /** The records of month `m`. */
  function InMonth(rs: seq<Feedback>, m: Month): seq<Feedback> { Members(rs, MonthOf(), m) }

  /** The months that have records, in calendar order. */
  function MonthsOf(rs: seq<Feedback>): (ms: seq<Month>)
    ensures multiset(ms) == multiset(GroupKeys(rs, MonthOf()))
    ensures SortedBy(ms, Chronological())
  {
    NumberOrdersAreTotal(MonthIndex(), (m: Month) => 0.0);
    SortSorted(GroupKeys(rs, MonthOf()), Chronological());
    Sort(GroupKeys(rs, MonthOf()), Chronological())
  }

  predicate DatesValid(fs: seq<Feedback>) {
    forall i :: 0 <= i < |fs| ==> ValidDateTime(fs[i].createdAt)
  }

  /** The months listed are distinct calendar months in strictly increasing
      order, each with at least one record. */
  lemma MonthsStrictlyIncrease(rs: seq<Feedback>)
    requires DatesValid(rs)
    ensures forall i, j :: 0 <= i < j < |MonthsOf(rs)| ==> MonthIndex()(MonthsOf(rs)[i]) < MonthIndex()(MonthsOf(rs)[j])
    ensures forall i :: 0 <= i < |MonthsOf(rs)| ==> |InMonth(rs, MonthsOf(rs)[i])| > 0
  {
    var keys := GroupKeys(rs, MonthOf());
    var ms := MonthsOf(rs);
    NoDuplicatesPermutation(keys, ms);
    forall i | 0 <= i < |ms| ensures 1 <= ms[i].month <= 12 && |InMonth(rs, ms[i])| > 0 {
      assert ms[i] in multiset(keys);
      var k :| 0 <= k < |rs| && MonthOf()(rs[k]) == ms[i];
      GroupsNonEmpty(rs, MonthOf(), ms[i]);
    }
    forall i, j | 0 <= i < j < |ms| ensures MonthIndex()(ms[i]) < MonthIndex()(ms[j]) {
      assert Chronological()(ms[i], ms[j]);
      if MonthIndex()(ms[i]) == MonthIndex()(ms[j]) {
        MonthIndexInjective(ms[i], ms[j]);
      }
    }
  }

  /** Every record's month is listed. */
  lemma MonthListed(rs: seq<Feedback>, i: nat)
    requires i < |rs|
    ensures MonthOf()(rs[i]) in MonthsOf(rs)
  {
    assert MonthOf()(rs[i]) in GroupKeys(rs, MonthOf());
    assert MonthOf()(rs[i]) in multiset(MonthsOf(rs));
  }

  // ---------------------------------------------------------------- monthly trends

  datatype MonthTrend = MonthTrend(month: Month, totalFeedback: nat, averageRating: real)

  function Trends(rs: seq<Feedback>, ms: seq<Month>): (r: seq<MonthTrend>)
    ensures |r| == |ms|
    ensures forall i :: 0 <= i < |r| ==>
              r[i] == MonthTrend(ms[i], |InMonth(rs, ms[i])|, Mean(InMonth(rs, ms[i])))
  {
    if ms == [] then []
    else [MonthTrend(ms[0], |InMonth(rs, ms[0])|, Mean(InMonth(rs, ms[0])))] + Trends(rs, ms[1..])
  }

  function TrendTotal(r: seq<MonthTrend>): nat {
    if r == [] then 0 else r[0].totalFeedback + TrendTotal(r[1..])
  }

  lemma {:induction false} TrendsTotal(rs: seq<Feedback>, ms: seq<Month>)
    ensures TrendTotal(Trends(rs, ms)) == SumSizes(rs, MonthOf(), ms)
  {
    if ms != [] {
      TrendsTotal(rs, ms[1..]);
    }
  }

  /** `monthlyTrends` */
  function MonthlyTrends(fs: seq<Feedback>, now: DateTime): seq<MonthTrend>
    requires ValidDateTime(now) && now.year >= 1
  {
    var rs := LastYear(fs, now);
    Trends(rs, MonthsOf(rs))
  }

  /** The monthly totals add up to the number of records of the last twelve
      months: every such record is counted in its own month, and no other
      record is counted. */
  lemma MonthlyTotalsCover(fs: seq<Feedback>, now: DateTime)
    requires ValidDateTime(now) && now.year >= 1
    ensures TrendTotal(MonthlyTrends(fs, now)) == Count(fs, Since(TwelveMonthsBefore(now)))
  {
    var rs := LastYear(fs, now);
    GroupsPartition(rs, MonthOf(), MonthsOf(rs));
    TrendsTotal(rs, MonthsOf(rs));
  }

  /** Selecting records keeps their dates valid and their ratings in range. */
  lemma FilterWellFormed(fs: seq<Feedback>, keep: Feedback -> bool)
    requires DatesValid(fs) && RatingsInRange(fs)
    ensures DatesValid(Filter(fs, keep)) && RatingsInRange(Filter(fs, keep))
  {
    var rs := Filter(fs, keep);
    forall i | 0 <= i < |rs| ensures ValidDateTime(rs[i].createdAt) && 1 <= rs[i].rating <= 5 {
      var k :| 0 <= k < |fs| && fs[k] == rs[i];
    }
  }

  /** Each month's entry counts and averages the records of that month within
      the last twelve months; it has at least one, its average lies in 1..5,
      and the months are in strictly increasing calendar order. */
  lemma MonthlyTrendsMeaning(fs: seq<Feedback>, now: DateTime)
    requires ValidDateTime(now) && now.year >= 1
    requires DatesValid(fs) && RatingsInRange(fs)
    ensures var t := MonthlyTrends(fs, now);
            && (forall i, j :: 0 <= i < j < |t| ==> MonthIndex()(t[i].month) < MonthIndex()(t[j].month))
            && (forall i :: 0 <= i < |t| ==> t[i].totalFeedback > 0 && 1.0 <= t[i].averageRating <= 5.0)
  {
    var rs := LastYear(fs, now);
    var ms := MonthsOf(rs);
    FilterWellFormed(fs, Since(TwelveMonthsBefore(now)));
    MonthsStrictlyIncrease(rs);
    forall i | 0 <= i < |ms| ensures 1.0 <= Mean(InMonth(rs, ms[i])) <= 5.0 {
      FilterWellFormed(rs, KeyIs(MonthOf(), ms[i]));
      MeanBounds(InMonth(rs, ms[i]));
    }
  }

  // ---------------------------------------------------------------- rating trends

  /** One month of `ratingTrends`: each rating given that month and how often. */
  datatype RatingTrend = RatingTrend(month: Month, ratings: seq<RatingCount>)

  /** The ratings of one month, in the order of the inner `$group`, which
      the store leaves unspecified (here: first appearance). */
  function MonthRatings(g: seq<Feedback>): seq<RatingCount> {
    Tallies(g, GroupKeys(g, RatingOf()))
  }

  function RatingTrendsOf(rs: seq<Feedback>, ms: seq<Month>): (r: seq<RatingTrend>)
    ensures |r| == |ms|
    ensures forall i :: 0 <= i < |r| ==> r[i] == RatingTrend(ms[i], MonthRatings(InMonth(rs, ms[i])))
  {
    seq(|ms|, i requires 0 <= i < |ms| => RatingTrend(ms[i], MonthRatings(InMonth(rs, ms[i]))))
  }

  /** `ratingTrends` */
  function RatingTrends(fs: seq<Feedback>, now: DateTime): seq<RatingTrend>
    requires ValidDateTime(now) && now.year >= 1
  {
    var rs := LastYear(fs, now);
    RatingTrendsOf(rs, MonthsOf(rs))
  }

  /** Within a month, each rating is listed once with a positive count, and
      the counts add up to the records of that month. */
  lemma MonthRatingsMeaning(g: seq<Feedback>)
    ensures TotalCount(MonthRatings(g)) == |g|
    ensures NoDuplicates(GroupKeys(g, RatingOf()))
    ensures forall i :: 0 <= i < |MonthRatings(g)| ==> MonthRatings(g)[i].count > 0
  {
    var ks := GroupKeys(g, RatingOf());
    GroupsPartition(g, RatingOf(), ks);
    TalliesTotal(g, ks);
    forall i | 0 <= i < |ks| ensures |Members(g, RatingOf(), ks[i])| > 0 {
      GroupsNonEmpty(g, RatingOf(), ks[i]);
    }
  }

  /** Rating trends list the same months as the monthly trends, in the same
      order, and each month's rating counts add up to that month's total. */
  lemma RatingTrendsAgree(fs: seq<Feedback>, now: DateTime)
    requires ValidDateTime(now) && now.year >= 1
    ensures |RatingTrends(fs, now)| == |MonthlyTrends(fs, now)|
    ensures forall i :: 0 <= i < |RatingTrends(fs, now)| ==>
              RatingTrends(fs, now)[i].month == MonthlyTrends(fs, now)[i].month
              && TotalCount(RatingTrends(fs, now)[i].ratings) == MonthlyTrends(fs, now)[i].totalFeedback
  {
    var rs := LastYear(fs, now);
    var ms := MonthsOf(rs);
    forall i | 0 <= i < |ms| ensures TotalCount(MonthRatings(InMonth(rs, ms[i]))) == |InMonth(rs, ms[i])| {
      MonthRatingsMeaning(InMonth(rs, ms[i]));
    }
  }

  // ---------------------------------------------------------------- course performance

  /** One `coursePerformance` entry: the course's rating entry, its pushed
      `ratings`, and how many of them are 5, 4, 3, 2 and 1. */
  datatype CoursePerformance = CoursePerformance(rating: CourseRating, ratings: seq<int>, ratingDistribution: Distribution)

  /** `$push: "$rating"` and `$addFields: { ratingDistribution }`: each entry
      keeps its course's ratings in record order, and each of the five counts
      is how often that value occurs in them. */
  function WithDistribution(fs: seq<Feedback>, es: seq<CourseRating>): (r: seq<CoursePerformance>)
    ensures |r| == |es|
    ensures forall i :: 0 <= i < |r| ==>
              r[i].rating == es[i] && r[i].ratings == RatingValues(AboutOne(fs, es[i].course))
    ensures forall i :: 0 <= i < |r| ==>
              var d := r[i].ratingDistribution;
              d.five == multiset(r[i].ratings)[5] && d.four == multiset(r[i].ratings)[4]
              && d.three == multiset(r[i].ratings)[3] && d.two == multiset(r[i].ratings)[2]
              && d.one == multiset(r[i].ratings)[1]
  {
    seq(|es|, i requires 0 <= i < |es| =>
      var g := AboutOne(fs, es[i].course);
      CoursePerformance(es[i], RatingValues(g), FiveWay(g)))
  }

  /** `coursePerformance`: every rated course, best average first, no limit. */
  function CoursePerformanceOf(fs: seq<Feedback>, courses: seq<Course>): seq<CoursePerformance> {
    WithDistribution(fs, Sort(CourseEntries(fs, courses), BestRatedFirst()))
  }

  /** Course performance lists every rated course, best average first. */
  lemma CoursePerformanceOrdered(fs: seq<Feedback>, courses: seq<Course>)
    ensures multiset(Ratings(CoursePerformanceOf(fs, courses))) == multiset(CourseEntries(fs, courses))
    ensures forall i, j :: 0 <= i < j < |CoursePerformanceOf(fs, courses)| ==>
              CoursePerformanceOf(fs, courses)[i].rating.averageRating >= CoursePerformanceOf(fs, courses)[j].rating.averageRating
  {
    var es := Sort(CourseEntries(fs, courses), BestRatedFirst());
    var p := CoursePerformanceOf(fs, courses);
    NumberOrdersAreTotal((e: CourseRating) => 0, (e: CourseRating) => e.averageRating);
    SortSorted(CourseEntries(fs, courses), BestRatedFirst());
    assert Ratings(p) == es;
    forall i, j | 0 <= i < j < |p| ensures p[i].rating.averageRating >= p[j].rating.averageRating {
      assert BestRatedFirst()(es[i], es[j]);
    }
  }

  /** The course entries of a performance list. */
  function Ratings(p: seq<CoursePerformance>): (r: seq<CourseRating>)
    ensures |r| == |p| && forall i :: 0 <= i < |p| ==> r[i] == p[i].rating
  {
    seq(|p|, i requires 0 <= i < |p| => p[i].rating)
  }

  /** A course's five counts add up to its total. */
  lemma DistributionSumsToTotal(fs: seq<Feedback>, courses: seq<Course>, e: CourseRating)
    requires RatingsInRange(fs) && e in CourseEntries(fs, courses)
    ensures var d := FiveWay(AboutOne(fs, e.course));
            d.five + d.four + d.three + d.two + d.one == e.totalFeedback
  {
    var cs := RatedCourses(fs, courses);
    var k :| 0 <= k < |cs| && Entries(fs, cs)[k] == e;
    var g := AboutOne(fs, e.course);
    assert RatingsInRange(g) by {
      forall m | 0 <= m < |g| ensures 1 <= g[m].rating <= 5 {
        var n :| 0 <= n < |fs| && fs[n] == g[m];
      }
    }
    FiveWaySums(g);
  }

  /** Every entry of course performance has a distribution that sums to its total. */
  lemma CoursePerformanceSums(fs: seq<Feedback>, courses: seq<Course>, i: nat)
    requires RatingsInRange(fs) && i < |CoursePerformanceOf(fs, courses)|
    ensures var p := CoursePerformanceOf(fs, courses)[i];
            var d := p.ratingDistribution;
            d.five + d.four + d.three + d.two + d.one == p.rating.totalFeedback
  {
    CoursePerformanceOrdered(fs, courses);
    var p := CoursePerformanceOf(fs, courses);
    assert Ratings(p)[i] in multiset(CourseEntries(fs, courses));
    DistributionSumsToTotal(fs, courses, p[i].rating);
  }

  // ---------------------------------------------------------------- student engagement

  /** One `studentEngagement` entry. */
  datatype Engagement = Engagement(student: User, totalFeedback: nat, averageRating: real, lastFeedback: DateTime)

  /** `"$student"` */
  function StudentOf(): Feedback -> Id { (f: Feedback) => f.student }

  /** `_id` of a user */
  function UserIdOf(): User -> Id { (u: User) => u.id }

  /** The feedback of student `u`. */
  function ByOne(fs: seq<Feedback>, u: User): seq<Feedback> { Members(fs, StudentOf(), u.id) }

  function Engage(fs: seq<Feedback>, u: User): Engagement
    requires |ByOne(fs, u)| > 0
  {
    var g := ByOne(fs, u);
    Engagement(u, |g|, Mean(g), Latest(g))
  }

  /** `$group` by student, `$lookup` the user and `$unwind` it. */
  function EngagementEntries(fs: seq<Feedback>, users: seq<User>): (r: seq<Engagement>)
    ensures forall i :: 0 <= i < |r| ==> |ByOne(fs, r[i].student)| > 0 && r[i] == Engage(fs, r[i].student)
    ensures forall i :: 0 <= i < |r| ==> r[i].student in users
  {
    var us := GroupRows(fs, StudentOf(), users, UserIdOf());
    seq(|us|, i requires 0 <= i < |us| => Engage(fs, us[i]))
  }

  /** `sort({ totalFeedback: -1 })` */
  function MostActiveFirst(): (Engagement, Engagement) -> bool {
    Descending((e: Engagement) => e.totalFeedback)
  }

  /** `studentEngagement`: `$sort: { totalFeedback: -1 }`, `$limit: 10` */
  function StudentEngagement(fs: seq<Feedback>, users: seq<User>): seq<Engagement> {
    Take(Sort(EngagementEntries(fs, users), MostActiveFirst()), 10)
  }

  /** The ten most active students, most active first; no student left out
      has more feedback than one listed. */
  lemma StudentEngagementIsTop(fs: seq<Feedback>, users: seq<User>)
    ensures |StudentEngagement(fs, users)| <= 10
    ensures SortedBy(StudentEngagement(fs, users), MostActiveFirst())
    ensures forall e :: e in StudentEngagement(fs, users) ==> e in EngagementEntries(fs, users)
    ensures forall e, g ::
              (e in EngagementEntries(fs, users) && e !in StudentEngagement(fs, users) && g in StudentEngagement(fs, users))
              ==> e.totalFeedback <= g.totalFeedback
  {
    var all := EngagementEntries(fs, users);
    NumberOrdersAreTotal((e: Engagement) => e.totalFeedback, (e: Engagement) => 0.0);
    TopOfSort(all, MostActiveFirst(), 10);
    var top := StudentEngagement(fs, users);
    forall e, g | e in all && e !in top && g in top ensures e.totalFeedback <= g.totalFeedback {
      assert MostActiveFirst()(g, e);
    }
  }

  /** An entry's `lastFeedback` is when the student last gave feedback: the
      time of one of their records, and no record of theirs is later. */
  lemma LastFeedbackMeaning(fs: seq<Feedback>, users: seq<User>, e: Engagement)
    requires e in EngagementEntries(fs, users)
    ensures exists i :: 0 <= i < |fs| && fs[i].student == e.student.id && fs[i].createdAt == e.lastFeedback
    ensures forall i :: 0 <= i < |fs| && fs[i].student == e.student.id ==> Ticks(fs[i].createdAt) <= Ticks(e.lastFeedback)
  {
    var g := ByOne(fs, e.student);
    var k :| 0 <= k < |g| && g[k].createdAt == e.lastFeedback;
    var n :| 0 <= n < |fs| && fs[n] == g[k];
    forall i | 0 <= i < |fs| && fs[i].student == e.student.id ensures Ticks(fs[i].createdAt) <= Ticks(e.lastFeedback) {
      assert KeyIs(StudentOf(), e.student.id)(fs[i]);
      var m :| 0 <= m < |g| && g[m] == fs[i];
    }
  }

  // ---------------------------------------------------------------- instructor performance

  /** The course a feedback record refers to, when it exists (`$lookup` of
      the course, `$unwind`). */
  function CourseFor(courses: seq<Course>, id: Id): Option<Course> {
    match IndexWhere(courses, CourseIdIs(id))
    case None => None
    case Some(j) => Some(courses[j])
  }

  function HasCourseRow(courses: seq<Course>): Feedback -> bool {
    (f: Feedback) => CourseFor(courses, f.course).Some?
  }

  /** `"$course.instructor"` */
  function InstructorOf(courses: seq<Course>): Feedback -> string {
    (f: Feedback) => match CourseFor(courses, f.course) case Some(c) => c.instructor case None => ""
  }

  /** `"$course.name"` */
  function CourseNameOf(courses: seq<Course>): Feedback -> string {
    (f: Feedback) => match CourseFor(courses, f.course) case Some(c) => c.name case None => ""
  }

  datatype InstructorStats = InstructorStats(instructor: string, totalFeedback: nat, averageRating: real, courses: set<string>)

  /** The records that survive the `$unwind` of their course. */
  function Joined(fs: seq<Feedback>, courses: seq<Course>): seq<Feedback> {
    Filter(fs, HasCourseRow(courses))
  }

  /** The records about courses taught by `name`. */
  function Taught(js: seq<Feedback>, courses: seq<Course>, name: string): seq<Feedback> {
    Members(js, InstructorOf(courses), name)
  }

  /** `$addToSet: "$course.name"` */
  function CourseNames(g: seq<Feedback>, courses: seq<Course>): set<string> {
    set f | f in g :: CourseNameOf(courses)(f)
  }

  function InstructorEntry(js: seq<Feedback>, courses: seq<Course>, name: string): InstructorStats {
    var g := Taught(js, courses, name);
    InstructorStats(name, |g|, Mean(g), CourseNames(g, courses))
  }

  /** `sort({ averageRating: -1 })` */
  function BestTaughtFirst(): (InstructorStats, InstructorStats) -> bool {
    DescendingReal((e: InstructorStats) => e.averageRating)
  }

  function InstructorEntries(js: seq<Feedback>, courses: seq<Course>, names: seq<string>): (r: seq<InstructorStats>)
    ensures |r| == |names| && forall i :: 0 <= i < |r| ==> r[i] == InstructorEntry(js, courses, names[i])
  {
    seq(|names|, i requires 0 <= i < |names| => InstructorEntry(js, courses, names[i]))
  }

  /** `instructorPerformance` */
  function InstructorPerformance(fs: seq<Feedback>, courses: seq<Course>): seq<InstructorStats> {
    var js := Joined(fs, courses);
    Sort(InstructorEntries(js, courses, GroupKeys(js, InstructorOf(courses))), BestTaughtFirst())
  }

  /** In a consistent store every feedback record's course exists, so no
      record is lost to the `$unwind`. */
  lemma NothingUnwound(users: seq<User>, courses: seq<Course>, fs: seq<Feedback>)
    requires Consistent(users, courses, fs)
    ensures Joined(fs, courses) == fs
  {
    forall i | 0 <= i < |fs| ensures HasCourseRow(courses)(fs[i]) {
      assert HasCourse(courses, fs[i].course);
      var j :| 0 <= j < |courses| && courses[j].id == fs[i].course;
      assert CourseIdIs(fs[i].course)(courses[j]);
    }
    FilterKeepsAll(fs, HasCourseRow(courses));
  }

  /** Each instructor entry counts the records about that instructor's
      courses, at least one; a record is among them exactly when its course
      is taught by that instructor; the average times the count is the sum
      of their ratings; and every course name it lists is the name of such a
      course. */
  lemma InstructorEntryMeaning(js: seq<Feedback>, courses: seq<Course>, name: string)
    requires name in GroupKeys(js, InstructorOf(courses))
    ensures var e := InstructorEntry(js, courses, name);
            && e.totalFeedback == Count(js, KeyIs(InstructorOf(courses), name)) > 0
            && (forall f :: f in Taught(js, courses, name) <==> f in js && InstructorOf(courses)(f) == name)
            && (forall n :: n in e.courses <==> exists f :: f in Taught(js, courses, name) && CourseNameOf(courses)(f) == n)
    ensures InstructorEntry(js, courses, name).averageRating * (InstructorEntry(js, courses, name).totalFeedback as real)
            == RatingSum(Taught(js, courses, name)) as real
  {
    GroupsNonEmpty(js, InstructorOf(courses), name);
    InstructorAverage(js, courses, name);
    forall f | f in js && InstructorOf(courses)(f) == name ensures f in Taught(js, courses, name) {
      var i :| 0 <= i < |js| && js[i] == f;
      assert KeyIs(InstructorOf(courses), name)(js[i]);
    }
  }

  /** `$avg`: an instructor's average times the count is the sum of the
      ratings of the records about their courses. */
  lemma InstructorAverage(js: seq<Feedback>, courses: seq<Course>, name: string)
    ensures InstructorEntry(js, courses, name).averageRating * (InstructorEntry(js, courses, name).totalFeedback as real)
            == RatingSum(Taught(js, courses, name)) as real
  {
    MeanTimesCount(Taught(js, courses, name), InstructorEntry(js, courses, name).averageRating,
                   InstructorEntry(js, courses, name).totalFeedback as real);
  }

  /** The instructor entries before sorting: one per instructor. */
  function InstructorGroups(fs: seq<Feedback>, courses: seq<Course>): seq<InstructorStats> {
    var js := Joined(fs, courses);
    InstructorEntries(js, courses, GroupKeys(js, InstructorOf(courses)))
  }

  /** The instructors are listed best average first. */
  lemma InstructorsRanked(fs: seq<Feedback>, courses: seq<Course>)
    ensures SortedBy(InstructorPerformance(fs, courses), BestTaughtFirst())
    ensures multiset(InstructorPerformance(fs, courses)) == multiset(InstructorGroups(fs, courses))
  {
    NumberOrdersAreTotal((e: InstructorStats) => 0, (e: InstructorStats) => e.averageRating);
    SortSorted(InstructorGroups(fs, courses), BestTaughtFirst());
  }

  /** Each instructor is listed once. */
  lemma InstructorsOnce(fs: seq<Feedback>, courses: seq<Course>)
    ensures forall i, j :: 0 <= i < j < |InstructorPerformance(fs, courses)| ==>
              InstructorPerformance(fs, courses)[i].instructor != InstructorPerformance(fs, courses)[j].instructor
  {
    var js := Joined(fs, courses);
    var names := GroupKeys(js, InstructorOf(courses));
    var es := InstructorGroups(fs, courses);
    var p := InstructorPerformance(fs, courses);
    InstructorsRanked(fs, courses);
    assert NoDuplicates(es) by {
      forall i, j | 0 <= i < j < |es| ensures es[i] != es[j] {
        assert es[i].instructor == names[i] && es[j].instructor == names[j];
      }
    }
    NoDuplicatesPermutation(es, p);
    forall i | 0 <= i < |p| ensures p[i] == InstructorEntry(js, courses, p[i].instructor) {
      assert p[i] in multiset(es);
    }
  }

  // ---------------------------------------------------------------- the route

  datatype AnalyticsReport = AnalyticsReport(
    monthlyTrends: seq<MonthTrend>, coursePerformance: seq<CoursePerformance>,
    studentEngagement: seq<Engagement>, ratingTrends: seq<RatingTrend>,
    instructorPerformance: seq<InstructorStats>)

  function AnalyticsOf(users: seq<User>, courses: seq<Course>, fs: seq<Feedback>, now: DateTime): (a: AnalyticsReport)
    requires Consistent(users, courses, fs) && ValidDateTime(now) && now.year >= 1
    ensures TrendTotal(a.monthlyTrends) == Count(fs, Since(TwelveMonthsBefore(now)))
    ensures |a.ratingTrends| == |a.monthlyTrends|
    ensures |a.studentEngagement| <= 10
  {
    MonthlyTotalsCover(fs, now);
    RatingTrendsAgree(fs, now);
    StudentEngagementIsTop(fs, users);
    AnalyticsReport(MonthlyTrends(fs, now), CoursePerformanceOf(fs, courses), StudentEngagement(fs, users),
                    RatingTrends(fs, now), InstructorPerformance(fs, courses))
  }
}
