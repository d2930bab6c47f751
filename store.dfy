/** The document store the routes talk to: the three collections held as
    sequences in insertion order (the store's natural order), and the writes
    the routes perform on them. Each write states the whole new content of
    the store and keeps `Valid`: the schemas, the unique indexes and the
    references between collections. */
module Store {
  import opened Common
  import opened Text
  import opened Seqs
  import opened Models

  /** Every `_id` in the collections was handed out before `next`. */
  predicate IdsBelow(users: seq<User>, courses: seq<Course>, fs: seq<Feedback>, next: nat) {
    && (forall i :: 0 <= i < |users| ==> users[i].id < next)
    && (forall i :: 0 <= i < |courses| ==> courses[i].id < next)
    && (forall i :: 0 <= i < |fs| ==> fs[i].id < next)
  }

  class Db {
    var users: seq<User>
    var courses: seq<Course>
    var feedback: seq<Feedback>
    var nextId: nat

    ghost predicate Valid()
      reads this
    {
      Consistent(users, courses, feedback) && IdsBelow(users, courses, feedback, nextId)
    }

    constructor ()
      ensures Valid()
      ensures users == [] && courses == [] && feedback == []
    {
      users, courses, feedback, nextId := [], [], [], 0;
    }

    // ------------------------------------------------------------ feedback

    /** `Feedback.create`: the new record gets a fresh `_id`. */
    method InsertFeedback(f: Feedback)
      requires Valid()
      requires f.id == nextId && ValidFeedback(f)
      requires HasStudent(users, f.student) && HasCourse(courses, f.course)
      requires forall i :: 0 <= i < |feedback| ==> !(feedback[i].student == f.student && feedback[i].course == f.course)
      modifies this
      ensures Valid()
      ensures feedback == old(feedback) + [f] && nextId == old(nextId) + 1
      ensures users == old(users) && courses == old(courses)
    {
      PairwiseSnoc(feedback, f, DistinctFeedback);
      feedback := feedback + [f];
      nextId := nextId + 1;
    }

    /** `findByIdAndUpdate` on feedback: the record at `k` is replaced by one
        with the same `_id`, student and course. */
    method ReplaceFeedbackAt(k: nat, f: Feedback)
      requires Valid()
      requires k < |feedback| && ValidFeedback(f)
      requires f.id == feedback[k].id && f.student == feedback[k].student && f.course == feedback[k].course
      modifies this
      ensures Valid()
      ensures feedback == old(feedback)[k := f]
      ensures users == old(users) && courses == old(courses) && nextId == old(nextId)
    {
      var s := feedback[k := f];
      forall i, j | 0 <= i < j < |s| ensures DistinctFeedback(s[i], s[j]) {
        assert DistinctFeedback(feedback[i], feedback[j]);
      }
      feedback := s;
    }

    /** `deleteMany` / `findByIdAndDelete` on feedback: the records that fail `keep` go. */
    method KeepFeedback(keep: Feedback -> bool)
      requires Valid()
      modifies this
      ensures Valid()
      ensures feedback == Filter(old(feedback), keep)
      ensures users == old(users) && courses == old(courses) && nextId == old(nextId)
    {
      FilterPairwise(feedback, keep, DistinctFeedback);
      feedback := Filter(feedback, keep);
    }

    // ------------------------------------------------------------ courses

    /** `Course.create`: a fresh `_id` and a code no course has. */
    method InsertCourse(c: Course)
      requires Valid()
      requires c.id == nextId && ValidCourse(c)
      requires forall i :: 0 <= i < |courses| ==> courses[i].code != c.code
      modifies this
      ensures Valid()
      ensures courses == old(courses) + [c] && nextId == old(nextId) + 1
      ensures users == old(users) && feedback == old(feedback)
    {
      PairwiseSnoc(courses, c, DistinctCourses);
      var cs := courses + [c];
      forall i | 0 <= i < |feedback| ensures HasCourse(cs, feedback[i].course) {
        assert HasCourse(courses, feedback[i].course);
        var j :| 0 <= j < |courses| && courses[j].id == feedback[i].course;
        assert cs[j] == courses[j];
      }
      courses := cs;
      nextId := nextId + 1;
    }

    /** `findByIdAndUpdate` on a course: same `_id`, and a code no other course has. */
    method ReplaceCourseAt(k: nat, c: Course)
      requires Valid()
      requires k < |courses| && ValidCourse(c) && c.id == courses[k].id
      requires forall i :: 0 <= i < |courses| && i != k ==> courses[i].code != c.code
      modifies this
      ensures Valid()
      ensures courses == old(courses)[k := c]
      ensures users == old(users) && feedback == old(feedback) && nextId == old(nextId)
    {
      var cs := courses[k := c];
      forall i, j | 0 <= i < j < |cs| ensures DistinctCourses(cs[i], cs[j]) {
        assert DistinctCourses(courses[i], courses[j]);
      }
      forall i | 0 <= i < |feedback| ensures HasCourse(cs, feedback[i].course) {
        assert HasCourse(courses, feedback[i].course);
        var j :| 0 <= j < |courses| && courses[j].id == feedback[i].course;
        assert cs[j].id == courses[j].id;
      }
      courses := cs;
    }

    /** `findByIdAndDelete` on a course that no feedback refers to. */
    method DeleteCourse(id: Id)
      requires Valid()
      requires forall i :: 0 <= i < |feedback| ==> feedback[i].course != id
      modifies this
      ensures Valid()
      ensures courses == Filter(old(courses), CourseIdIsNot(id))
      ensures users == old(users) && feedback == old(feedback) && nextId == old(nextId)
    {
      DeleteCourseKeepsConsistent(users, courses, feedback, id);
      courses := Filter(courses, CourseIdIsNot(id));
    }

    // ------------------------------------------------------------ users

    /** `User.create`: a fresh `_id` and an email no user has. */
    method InsertUser(u: User)
      requires Valid()
      requires u.id == nextId && ValidUser(u)
      requires forall i :: 0 <= i < |users| ==> users[i].email != u.email
      modifies this
      ensures Valid()
      ensures users == old(users) + [u] && nextId == old(nextId) + 1
      ensures courses == old(courses) && feedback == old(feedback)
    {
      PairwiseSnoc(users, u, DistinctUsers);
      var us := users + [u];
      forall i | 0 <= i < |us| ensures ValidUser(us[i]) {
        if i < |users| {
          assert us[i] == users[i];
        }
      }
      forall i | 0 <= i < |feedback| ensures HasStudent(us, feedback[i].student) {
        assert HasStudent(users, feedback[i].student);
        var j :| 0 <= j < |users| && users[j].id == feedback[i].student && users[j].role == Student;
        assert us[j] == users[j];
      }
      users := us;
      nextId := nextId + 1;
    }

    /** `save()` / `findByIdAndUpdate` on a user: same `_id`, email and role. */
    method ReplaceUserAt(k: nat, u: User)
      requires Valid()
      requires k < |users| && ValidUser(u)
      requires u.id == users[k].id && u.email == users[k].email && u.role == users[k].role
      modifies this
      ensures Valid()
      ensures users == old(users)[k := u]
      ensures courses == old(courses) && feedback == old(feedback) && nextId == old(nextId)
    {
      var us := users[k := u];
      forall i, j | 0 <= i < j < |us| ensures DistinctUsers(us[i], us[j]) {
        assert DistinctUsers(users[i], users[j]);
      }
      forall i | 0 <= i < |feedback| ensures HasStudent(us, feedback[i].student) {
        assert HasStudent(users, feedback[i].student);
        var j :| 0 <= j < |users| && users[j].id == feedback[i].student && users[j].role == Student;
        assert us[j].id == users[j].id && us[j].role == users[j].role;
      }
      users := us;
    }

    /** `findByIdAndDelete` on a user whom no feedback refers to. */
    method DeleteUser(id: Id)
      requires Valid()
      requires forall i :: 0 <= i < |feedback| ==> feedback[i].student != id
      modifies this
      ensures Valid()
      ensures users == Filter(old(users), UserIdIsNot(id))
      ensures courses == old(courses) && feedback == old(feedback) && nextId == old(nextId)
    {
      DeleteUserKeepsConsistent(users, courses, feedback, id);
      users := Filter(users, UserIdIsNot(id));
    }
  }

  lemma DeleteCourseKeepsConsistent(users: seq<User>, courses: seq<Course>, fs: seq<Feedback>, id: Id)
    requires Consistent(users, courses, fs)
    requires forall i :: 0 <= i < |fs| ==> fs[i].course != id
    ensures Consistent(users, Filter(courses, CourseIdIsNot(id)), fs)
  {
    var cs := Filter(courses, CourseIdIsNot(id));
    FilterPairwise(courses, CourseIdIsNot(id), DistinctCourses);
    forall i | 0 <= i < |cs| ensures ValidCourse(cs[i]) {
      var j :| 0 <= j < |courses| && courses[j] == cs[i];
    }
    forall i | 0 <= i < |fs| ensures HasCourse(cs, fs[i].course) {
      assert HasCourse(courses, fs[i].course);
      var j :| 0 <= j < |courses| && courses[j].id == fs[i].course;
      assert courses[j] in cs;
      var m :| 0 <= m < |cs| && cs[m] == courses[j];
    }
  }

  lemma DeleteUserKeepsConsistent(users: seq<User>, courses: seq<Course>, fs: seq<Feedback>, id: Id)
    requires Consistent(users, courses, fs)
    requires forall i :: 0 <= i < |fs| ==> fs[i].student != id
    ensures Consistent(Filter(users, UserIdIsNot(id)), courses, fs)
  {
    var us := Filter(users, UserIdIsNot(id));
    FilterPairwise(users, UserIdIsNot(id), DistinctUsers);
    forall i | 0 <= i < |us| ensures ValidUser(us[i]) {
      var j :| 0 <= j < |users| && users[j] == us[i];
    }
    forall i | 0 <= i < |fs| ensures HasStudent(us, fs[i].student) {
      assert HasStudent(users, fs[i].student);
      var j :| 0 <= j < |users| && users[j].id == fs[i].student && users[j].role == Student;
      assert users[j] in us;
      var m :| 0 <= m < |us| && us[m] == users[j];
    }
  }
}
