/** The admin dashboard (`GET /api/admin/dashboard`): counts of students,
    courses, feedback and blocked students, the average rating, the rating
    distribution, the five newest feedback records and the ten best-rated
    courses. The route only reads the store, so it is a function of the
    three collections. */
module Dashboard {
  import opened Common
  import opened Seqs
  import opened Sorting
  import opened Grouping
  import opened Models
  import opened Stats

  /** `{ role: "student" }` */
  function IsStudentUser(): User -> bool { (u: User) => u.role == Student }

  /** `{ role: "student", isBlocked: true }` */
  function IsBlockedStudent(): User -> bool { (u: User) => u.role == Student && u.isBlocked }

  /** A blocked student is a student, so there are never more blocked
      students than students. */
  lemma BlockedAreStudents(users: seq<User>)
    ensures Count(users, IsBlockedStudent()) <= Count(users, IsStudentUser())
  {
    FilterNarrower(users, IsBlockedStudent(), IsStudentUser());
  }

  // ---------------------------------------------------------------- rating distribution

  /** One `{ _id: rating, count }` entry. */
  datatype RatingCount = RatingCount(rating: int, count: nat)

  /** The entries for the ratings `ks`, in that order. */
  function Tallies(fs: seq<Feedback>, ks: seq<int>): (r: seq<RatingCount>)
    ensures |r| == |ks|
    ensures forall i :: 0 <= i < |r| ==> r[i].rating == ks[i] && r[i].count == |Members(fs, RatingOf(), ks[i])|
  {
    if ks == [] then [] else [RatingCount(ks[0], |Members(fs, RatingOf(), ks[0])|)] + Tallies(fs, ks[1..])
  }

  function TotalCount(r: seq<RatingCount>): nat {
    if r == [] then 0 else r[0].count + TotalCount(r[1..])
  }

  lemma {:induction false} TalliesTotal(fs: seq<Feedback>, ks: seq<int>)
    ensures TotalCount(Tallies(fs, ks)) == SumSizes(fs, RatingOf(), ks)
  {
    if ks != [] {
      TalliesTotal(fs, ks[1..]);
    }
  }

  /** `sort({ _id: 1 })` on numbers */
  function Increasing(): (int, int) -> bool { Ascending((k: int) => k) }

  /** `$group` by rating, then `$sort` by rating ascending. */
  function RatingDistribution(fs: seq<Feedback>): seq<RatingCount> {
    Tallies(fs, SortedRatings(fs))
  }

  /** The rating keys, sorted: a permutation of the distinct ratings. */
  function SortedRatings(fs: seq<Feedback>): (ks: seq<int>)
    ensures multiset(ks) == multiset(GroupKeys(fs, RatingOf()))
    ensures SortedBy(ks, Increasing())
  {
    NumberOrdersAreTotal((k: int) => k, (k: int) => k as real);
    SortSorted(GroupKeys(fs, RatingOf()), Increasing());
    Sort(GroupKeys(fs, RatingOf()), Increasing())
  }

  /** The distribution lists each occurring rating once, in strictly
      ascending order. */
  lemma RatingsAscending(fs: seq<Feedback>)
    ensures forall i, j :: 0 <= i < j < |RatingDistribution(fs)| ==>
              RatingDistribution(fs)[i].rating < RatingDistribution(fs)[j].rating
  {
    var ks := SortedRatings(fs);
    var r := RatingDistribution(fs);
    NoDuplicatesPermutation(GroupKeys(fs, RatingOf()), ks);
    forall i, j | 0 <= i < j < |r| ensures r[i].rating < r[j].rating {
      assert r[i].rating == ks[i] && r[j].rating == ks[j];
      assert Increasing()(ks[i], ks[j]) && ks[i] != ks[j];
    }
  }

  /** Each entry counts the records that carry its rating, and there is at
      least one. */
  lemma RatingCountsPositive(fs: seq<Feedback>)
    ensures forall i :: 0 <= i < |RatingDistribution(fs)| ==>
              RatingDistribution(fs)[i].count == Count(fs, KeyIs(RatingOf(), RatingDistribution(fs)[i].rating)) > 0
  {
    var ks := SortedRatings(fs);
    forall i | 0 <= i < |ks| ensures |Members(fs, RatingOf(), ks[i])| > 0 {
      assert ks[i] in multiset(GroupKeys(fs, RatingOf()));
      GroupsNonEmpty(fs, RatingOf(), ks[i]);
    }
  }

  /** Every record's rating is listed. */
  lemma RatingsCovered(fs: seq<Feedback>, i: nat)
    requires i < |fs|
    ensures exists j :: 0 <= j < |RatingDistribution(fs)| && RatingDistribution(fs)[j].rating == fs[i].rating
  {
    var ks := SortedRatings(fs);
    assert RatingOf()(fs[i]) in GroupKeys(fs, RatingOf());
    assert fs[i].rating in multiset(ks);
    var j :| 0 <= j < |ks| && ks[j] == fs[i].rating;
    assert RatingDistribution(fs)[j].rating == fs[i].rating;
  }

  /** The counts add up to the number of records. */
  lemma RatingCountsTotal(fs: seq<Feedback>)
    ensures TotalCount(RatingDistribution(fs)) == |fs|
  {
    var ks := SortedRatings(fs);
    GroupsPartition(fs, RatingOf(), ks);
    TalliesTotal(fs, ks);
  }

  // ---------------------------------------------------------------- recent feedback

  /** `find().sort({ createdAt: -1 }).limit(5)` */
  function RecentFeedback(fs: seq<Feedback>): seq<Feedback> {
    Take(Sort(fs, NewestFirst()), 5)
  }

  /** The recent list holds the five newest records (all of them when there
      are fewer), newest first: no record left out is newer than one listed. */
  lemma RecentAreNewest(fs: seq<Feedback>)
    ensures var r := RecentFeedback(fs);
            && |r| == (if |fs| < 5 then |fs| else 5)
            && SortedBy(r, NewestFirst())
            && (forall i :: 0 <= i < |r| ==> r[i] in fs)
            && (forall f, g :: f in fs && f !in r && g in r ==> Ticks(f.createdAt) <= Ticks(g.createdAt))
  {
    NumberOrdersAreTotal((f: Feedback) => Ticks(f.createdAt), (f: Feedback) => 0.0);
    TopOfSort(fs, NewestFirst(), 5);
  }

  // ---------------------------------------------------------------- course ratings

  /** One `courseRatings` entry: the course looked up, and its feedback's
      average and count. */
  datatype CourseRating = CourseRating(course: Course, averageRating: real, totalFeedback: nat)

  /** `"$course"` */
  function CourseOf(): Feedback -> Id { (f: Feedback) => f.course }

  /** `_id` of a course */
  function CourseIdOf(): Course -> Id { (c: Course) => c.id }

  /** The feedback about course `c`. */
  function AboutOne(fs: seq<Feedback>, c: Course): seq<Feedback> { Members(fs, CourseOf(), c.id) }

  function RateCourse(fs: seq<Feedback>, c: Course): CourseRating {
    var g := AboutOne(fs, c);
    CourseRating(c, Mean(g), |g|)
  }

  /** `$group` by course, `$lookup` the course and `$unwind` it: one entry
      per course that has feedback and still exists. */
  function RatedCourses(fs: seq<Feedback>, courses: seq<Course>): (r: seq<Course>)
    ensures forall i :: 0 <= i < |r| ==> r[i] in courses && |AboutOne(fs, r[i])| > 0
  {
    GroupRows(fs, CourseOf(), courses, CourseIdOf())
  }

  /** Every course that exists and has feedback is rated, and no course
      twice. */
  lemma RatedCoursesComplete(fs: seq<Feedback>, courses: seq<Course>, i: nat, j: nat)
    requires i < |fs| && j < |courses| && courses[j].id == fs[i].course
    ensures exists k :: 0 <= k < |RatedCourses(fs, courses)| && RatedCourses(fs, courses)[k].id == fs[i].course
    ensures NoDuplicates(Ids(RatedCourses(fs, courses), CourseIdOf()))
  {
    GroupRowsComplete(fs, CourseOf(), courses, CourseIdOf(), i, j);
    var r := RatedCourses(fs, courses);
    var k :| 0 <= k < |r| && CourseIdOf()(r[k]) == CourseOf()(fs[i]);
    assert r[k].id == fs[i].course;
  }

  function Entries(fs: seq<Feedback>, cs: seq<Course>): (r: seq<CourseRating>)
    ensures |r| == |cs| && forall i :: 0 <= i < |r| ==> r[i] == RateCourse(fs, cs[i])
  {
    seq(|cs|, i requires 0 <= i < |cs| => RateCourse(fs, cs[i]))
  }

  /** `sort({ averageRating: -1 })` */
  function BestRatedFirst(): (CourseRating, CourseRating) -> bool {
    DescendingReal((e: CourseRating) => e.averageRating)
  }

  /** Every rated course with its average and count, before ranking. */
  function CourseEntries(fs: seq<Feedback>, courses: seq<Course>): seq<CourseRating> {
    Entries(fs, RatedCourses(fs, courses))
  }

  /** `$sort: { averageRating: -1 }`, `$limit: 10` */
  function CourseRatings(fs: seq<Feedback>, courses: seq<Course>): seq<CourseRating> {
    Take(Sort(CourseEntries(fs, courses), BestRatedFirst()), 10)
  }

  /** The course ratings are at most ten entries, best average first, each
      the average and count of one rated course; no entry left out has a
      better average than one listed. */
  lemma CourseRatingsAreTop(fs: seq<Feedback>, courses: seq<Course>)
    ensures |CourseRatings(fs, courses)| <= 10
    ensures SortedBy(CourseRatings(fs, courses), BestRatedFirst())
    ensures forall e :: e in CourseRatings(fs, courses) ==> e in CourseEntries(fs, courses)
    ensures forall e, g :: e in CourseEntries(fs, courses) && e !in CourseRatings(fs, courses) && g in CourseRatings(fs, courses)
              ==> e.averageRating <= g.averageRating
  {
    var all := CourseEntries(fs, courses);
    NumberOrdersAreTotal((e: CourseRating) => 0, (e: CourseRating) => e.averageRating);
    TopOfSort(all, BestRatedFirst(), 10);
    var top := CourseRatings(fs, courses);
    forall e, g | e in all && e !in top && g in top ensures e.averageRating <= g.averageRating {
      assert BestRatedFirst()(g, e);
    }
  }

  /** Each course rating is the mean of that course's ratings, which lies
      between 1 and 5, over a positive number of records. */
  lemma CourseRatingMeaning(fs: seq<Feedback>, courses: seq<Course>, e: CourseRating)
    requires RatingsInRange(fs)
    requires e in CourseEntries(fs, courses)
    ensures e.course in courses
    ensures e.totalFeedback == Count(fs, KeyIs(CourseOf(), e.course.id)) > 0
    ensures e.averageRating == Mean(Filter(fs, KeyIs(CourseOf(), e.course.id)))
    ensures 1.0 <= e.averageRating <= 5.0
  {
    var cs := RatedCourses(fs, courses);
    var k :| 0 <= k < |cs| && Entries(fs, cs)[k] == e;
    var g := AboutOne(fs, cs[k]);
    assert RatingsInRange(g) by {
      forall i | 0 <= i < |g| ensures 1 <= g[i].rating <= 5 {
        var m :| 0 <= m < |fs| && fs[m] == g[i];
      }
    }
    MeanBounds(g);
  }

  // ---------------------------------------------------------------- the route

  datatype DashboardStats = DashboardStats(
    totalStudents: nat, totalCourses: nat, totalFeedback: nat, blockedStudents: nat,
    averageRating: real, ratingDistribution: seq<RatingCount>,
    recentFeedback: seq<Feedback>, courseRatings: seq<CourseRating>)

  /** The dashboard over the store's three collections. */
  function DashboardOf(users: seq<User>, courses: seq<Course>, fs: seq<Feedback>): (d: DashboardStats)
    requires Consistent(users, courses, fs)
    ensures d.blockedStudents <= d.totalStudents
    ensures d.totalFeedback == |fs| == TotalCount(d.ratingDistribution)
    ensures d.averageRating == Mean(fs)
    ensures d.totalFeedback == 0 ==> d.averageRating == 0.0
    ensures d.totalFeedback > 0 ==> 1.0 <= d.averageRating <= 5.0
    ensures |d.recentFeedback| == (if |fs| < 5 then |fs| else 5)
  {
    BlockedAreStudents(users);
    RatingCountsTotal(fs);
    RecentAreNewest(fs);
    assert fs != [] ==> 1.0 <= Mean(fs) <= 5.0 by {
      assert RatingsInRange(fs);
      if fs != [] { MeanBounds(fs); }
    }
    DashboardStats(Count(users, IsStudentUser()), |courses|, |fs|, Count(users, IsBlockedStudent()),
                   Mean(fs), RatingDistribution(fs), RecentFeedback(fs), CourseRatings(fs, courses))
  }
}
