/** The admin routes over students: the searchable student list with each
    student's feedback count, blocking or unblocking a student, and deleting a
    student together with their feedback. */
module AdminStudents {
  import opened Common
  import opened Seqs
  import opened Sorting
  import opened Models
  import opened Store
  import opened Pagination

  // ---------------------------------------------------------------- the student list

  /** An optional text query parameter checked with `isLength({ min: 1 })`. */
  datatype TextParam = NoText | GivenText(s: string)

  /** Whether a `$regex` pattern, with the `i` option, matches somewhere in a
      text. Regular expressions are a parameter of the model. */
  type Matcher = (string, string) -> bool

  /** `{ role: "student" }`, with `$or` over a name or an email the search
      term matches when a search term is given. */
  function StudentFilter(search: TextParam, matches: Matcher): User -> bool {
    (u: User) => u.role == Student
                 && (search.GivenText? && search.s != [] ==> matches(search.s, u.name) || matches(search.s, u.email))
  }

  /** `sort({ createdAt: -1 })` on users. */
  function NewestUserFirst(): (User, User) -> bool {
    Descending((u: User) => Ticks(u.createdAt))
  }

  /** Every student the filter selects, newest account first. */
  function Students(users: seq<User>, search: TextParam, matches: Matcher): seq<User> {
    Sort(Filter(users, StudentFilter(search, matches)), NewestUserFirst())
  }

  /** A listed student: the document as an object (the password is never
      selected) and the number of feedback records the student wrote. */
  datatype StudentEntry = StudentEntry(student: map<string, JsonValue>, feedbackCount: nat)

  function EntryOf(fs: seq<Feedback>, u: User): StudentEntry {
    StudentEntry(ToJson(u), Count(fs, ByStudent(u.id)))
  }

  /** `GET /api/admin/students` */
  function StudentList(users: seq<User>, fs: seq<Feedback>, page: IntParam, limit: IntParam,
                       search: TextParam, matches: Matcher): (r: Response<Listing<StudentEntry>>)
    ensures r.Fail? <==> PageRequest(page, limit, 20, 100).None? || search == GivenText([])
    ensures r.Fail? ==> r == Fail(BadRequest, "Validation failed")
    ensures r.Ok? ==> r.status == 200
    ensures r.Ok? ==> forall i :: 0 <= i < |r.body.items| ==> "password" !in r.body.items[i].student
    ensures r.Ok? ==> var (p, l) := PageRequest(page, limit, 20, 100).value;
              && |r.body.items| == |Window(Students(users, search, matches), p, l)| <= l
              && (forall i :: 0 <= i < |r.body.items| ==>
                    r.body.items[i] == EntryOf(fs, Window(Students(users, search, matches), p, l)[i]))
              && r.body.pagination == Paginate(p, l, Count(users, StudentFilter(search, matches)))
  {
    match PageRequest(page, limit, 20, 100)
    case None => Fail(BadRequest, "Validation failed")
    case Some((p, l)) =>
      if search == GivenText([]) then Fail(BadRequest, "Validation failed")
      else
        var w := Window(Students(users, search, matches), p, l);
        Ok(200, Listing(seq(|w|, i requires 0 <= i < |w| => EntryOf(fs, w[i])),
                        Paginate(p, l, Count(users, StudentFilter(search, matches)))))
  }

  /** The students behind a page are students the search matches, newest
      account first, and they are the selected students and no others. */
  lemma StudentsMeaning(users: seq<User>, search: TextParam, matches: Matcher, page: int, limit: int)
    requires page >= 1 && limit >= 1
    ensures multiset(Students(users, search, matches)) == multiset(Filter(users, StudentFilter(search, matches)))
    ensures SortedBy(Window(Students(users, search, matches), page, limit), NewestUserFirst())
    ensures forall i :: 0 <= i < |Window(Students(users, search, matches), page, limit)| ==>
              var u := Window(Students(users, search, matches), page, limit)[i];
              && u in users && u.role == Student
              && (search.GivenText? && search.s != [] ==> matches(search.s, u.name) || matches(search.s, u.email))
  {
    var s := Students(users, search, matches);
    var keep := StudentFilter(search, matches);
    NumberOrdersAreTotal((u: User) => Ticks(u.createdAt), (u: User) => 0.0);
    SortSorted(Filter(users, keep), NewestUserFirst());
    forall i | 0 <= i < |s| ensures s[i] in users && keep(s[i]) {
      assert s[i] in multiset(Filter(users, keep));
    }
    WindowKeepsOrder(s, page, limit, NewestUserFirst());
    WindowKeeps(s, page, limit, (u: User) => u in users && keep(u));
  }

  /** The count beside a student is the number of records whose author is
      that student: deleting the student's records would remove exactly that
      many. */
  lemma FeedbackCountMeaning(fs: seq<Feedback>, u: User)
    ensures EntryOf(fs, u).feedbackCount == |fs| - |Filter(fs, NotByStudent(u.id))|
    ensures EntryOf(fs, u).feedbackCount == 0 <==> forall i :: 0 <= i < |fs| ==> fs[i].student != u.id
  {
    FilterComplement(fs, NotByStudent(u.id), ByStudent(u.id));
    if EntryOf(fs, u).feedbackCount != 0 {
      assert Filter(fs, ByStudent(u.id))[0].student == u.id;
    }
  }

  // ---------------------------------------------------------------- blocking

  /** The users with `isBlocked` flipped on the user `id`, and every other user as it was. */
  function Toggled(users: seq<User>, id: Id): seq<User> {
    seq(|users|, i requires 0 <= i < |users| =>
      if users[i].id == id then users[i].(isBlocked := !users[i].isBlocked) else users[i])
  }

  /** Since `_id`s are unique, flipping by id changes the one user at `k` and no other. */
  lemma ToggledAt(users: seq<User>, k: nat)
    requires UsersUnique(users) && k < |users|
    ensures Toggled(users, users[k].id) == users[k := users[k].(isBlocked := !users[k].isBlocked)]
  {
    var t := Toggled(users, users[k].id);
    forall i | 0 <= i < |users| && i != k ensures t[i] == users[i] {
      if i < k {
        assert DistinctUsers(users[i], users[k]);
      } else {
        assert DistinctUsers(users[k], users[i]);
      }
    }
  }

  /** Blocking is a toggle: doing it twice gives the users back, and it never
      changes who exists or what else they hold. */
  lemma {:induction false} ToggledTwice(users: seq<User>, id: Id)
    ensures Toggled(Toggled(users, id), id) == users
    ensures forall i :: 0 <= i < |users| ==>
              Toggled(users, id)[i].(isBlocked := users[i].isBlocked) == users[i]
  {
    var t := Toggled(users, id);
    var tt := Toggled(t, id);
    forall i | 0 <= i < |users| ensures tt[i] == users[i] {
      assert t[i].id == users[i].id;
    }
  }

  /** `PUT /api/admin/students/:id/block`: the student's `isBlocked` is
      flipped and saved (the password is not modified, so it is not hashed
      again), and the reply names the new state. */
  method BlockStudent(db: Db, id: PathId) returns (r: Response<(string, map<string, JsonValue>)>)
    requires db.Valid()
    modifies db
    ensures db.Valid()
    ensures id.CastFailure? ==> r == Fail(ServerError, "Server error")
    ensures id.WellFormedId? && !HasStudent(old(db.users), id.id) ==> r == Fail(NotFound, "Student not found")
    ensures r.Ok? <==> id.WellFormedId? && HasStudent(old(db.users), id.id)
    ensures r.Fail? ==> db.users == old(db.users)
    ensures r.Ok? ==> db.users == Toggled(old(db.users), id.id)
    ensures r.Ok? ==> exists k :: 0 <= k < |db.users| && db.users[k].id == id.id && db.users[k].role == Student
                        && r == Ok(200, (if db.users[k].isBlocked then "Student blocked successfully"
                                         else "Student unblocked successfully", ToJson(db.users[k])))
    ensures db.courses == old(db.courses) && db.feedback == old(db.feedback) && db.nextId == old(db.nextId)
  {
    if id.CastFailure? {
      return Fail(ServerError, "Server error");
    }
    var found := IndexWhere(db.users, StudentIdIs(id.id));
    if found.None? {
      return Fail(NotFound, "Student not found");
    }
    var k := found.value;
    var student := db.users[k];
    var doc := new UserDocument.Load(student);
    doc.SetBlocked(!doc.record.isBlocked);
    var saved := doc.Save((p: string) => p);
    assert doc.record == student.(isBlocked := !student.isBlocked);
    ToggledAt(db.users, k);
    db.ReplaceUserAt(k, doc.record);
    assert db.users[k] == doc.record;
    var message := if doc.record.isBlocked then "Student blocked successfully" else "Student unblocked successfully";
    r := Ok(200, (message, ToJson(doc.record)));
  }

  // ---------------------------------------------------------------- deleting

  /** Every record but those written by `id`. */
  function NotByStudent(id: Id): Feedback -> bool { (f: Feedback) => f.student != id }

  /** `DELETE /api/admin/students/:id`: the student's feedback goes first
      (`deleteMany`), then the student. */
  method DeleteStudent(db: Db, id: PathId) returns (r: Response<string>)
    requires db.Valid()
    modifies db
    ensures db.Valid()
    ensures id.CastFailure? ==> r == Fail(ServerError, "Server error")
    ensures id.WellFormedId? && !HasStudent(old(db.users), id.id) ==> r == Fail(NotFound, "Student not found")
    ensures r.Ok? <==> id.WellFormedId? && HasStudent(old(db.users), id.id)
    ensures r.Fail? ==> db.users == old(db.users) && db.feedback == old(db.feedback)
    ensures r.Ok? ==> r == Ok(200, "Student and their feedback deleted successfully")
    ensures r.Ok? ==> db.feedback == Filter(old(db.feedback), NotByStudent(id.id))
    ensures r.Ok? ==> db.users == Filter(old(db.users), UserIdIsNot(id.id))
    ensures db.courses == old(db.courses) && db.nextId == old(db.nextId)
  {
    if id.CastFailure? {
      return Fail(ServerError, "Server error");
    }
    var found := IndexWhere(db.users, StudentIdIs(id.id));
    if found.None? {
      return Fail(NotFound, "Student not found");
    }
    db.KeepFeedback(NotByStudent(id.id));
    db.DeleteUser(id.id);
    r := Ok(200, "Student and their feedback deleted successfully");
  }

  /** Deleting a student removes that one account, every record the student
      wrote and nothing else. */
  lemma StudentDeletionMeaning(users: seq<User>, fs: seq<Feedback>, id: Id)
    requires UsersUnique(users) && HasStudent(users, id)
    ensures |Filter(users, UserIdIsNot(id))| == |users| - 1
    ensures |Filter(fs, NotByStudent(id))| == |fs| - Count(fs, ByStudent(id))
    ensures forall i :: 0 <= i < |fs| && fs[i].student != id ==> fs[i] in Filter(fs, NotByStudent(id))
    ensures forall g :: g in Filter(fs, NotByStudent(id)) ==> g.student != id
  {
    FilterComplement(users, UserIdIsNot(id), UserIdIs(id));
    FilterAtMostOne(users, UserIdIs(id), DistinctUsers);
    var i :| 0 <= i < |users| && users[i].id == id && users[i].role == Student;
    assert users[i] in Filter(users, UserIdIs(id));
    FilterComplement(fs, NotByStudent(id), ByStudent(id));
    var kept := Filter(fs, NotByStudent(id));
    forall g | g in kept ensures g.student != id {
      var j :| 0 <= j < |kept| && kept[j] == g;
    }
  }
}
