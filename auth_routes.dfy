/** The public account routes: registering a student, and the two sign-in
    routes, whose checks run in a fixed order. `isEmail`, `normalizeEmail`,
    `isISO8601`, bcrypt and the token signer are inputs: `emailOk` and
    `dateOk` are the validators' verdicts, `email` is the normalized address,
    `hash` and `compare` stand for bcrypt. */
module AuthRoutes {
  import opened Common
  import opened Text
  import opened Seqs
  import opened Models
  import opened Store
  import opened Validators

  // ---------------------------------------------------------------- register

  /** The validators of `POST /api/auth/register`. */
  predicate RegisterValid(name: string, emailOk: bool, password: string, phone: string, dateOk: bool, address: string) {
    && TrimmedLengthIn(name, 2, 50)
    && emailOk
    && PasswordAccepted(password)
    && IsPhone(phone)
    && dateOk
    && TrimmedLengthIn(address, 5, 200)
  }

  /** Whether some user has this address; the schema's `lowercase` applies to
      the query value as it does to the stored one. */
  predicate EmailTaken(users: seq<User>, email: string) {
    exists i :: 0 <= i < |users| && users[i].email == ToLowerAscii(email)
  }

  /** The document `User.create` builds from the sanitized body, before the
      pre-save hook hashes its password. */
  function Registered(id: Id, name: string, email: string, password: string, phone: string,
                      dateOfBirth: string, address: string, now: DateTime): User {
    NewUser(id, Trim(name), email, password, phone, dateOfBirth, Trim(address), now)
  }

  /** What the validators do not settle about the new document: the schema
      also matches the address against its own email pattern (which `isEmail`
      need not agree with) and asks for a non-empty date of birth. */
  lemma RegisteredValid(id: Id, name: string, email: string, password: string, phone: string,
                        dateOfBirth: string, address: string, now: DateTime)
    requires RegisterValid(name, true, password, phone, true, address) && ValidDateTime(now)
    ensures ValidUser(Registered(id, name, email, password, phone, dateOfBirth, address, now)) <==>
              EmailPattern(ToLowerAscii(email)) && dateOfBirth != []
    ensures Registered(id, name, email, password, phone, dateOfBirth, address, now).role == Student
  {
    TrimIdempotent(name);
    TrimmedIff(Trim(name));
    LowerCaseIsFinal(email);
  }

  /** `POST /api/auth/register`: validators, then the duplicate-email check,
      then `User.create`, whose schema validation failing ends in the catch
      block. The reply carries the document as `toJSON` prints it. */
  method Register(db: Db, name: string, email: string, emailOk: bool, password: string, phone: string,
                  dateOfBirth: string, dateOk: bool, address: string, hash: string -> string, now: DateTime)
      returns (r: Response<(string, map<string, JsonValue>)>)
    requires db.Valid() && ValidDateTime(now)
    modifies db
    ensures db.Valid()
    ensures !RegisterValid(name, emailOk, password, phone, dateOk, address) ==> r == Fail(BadRequest, "Validation failed")
    ensures RegisterValid(name, emailOk, password, phone, dateOk, address) && EmailTaken(old(db.users), email)
            ==> r == Fail(BadRequest, "User already exists with this email")
    ensures (RegisterValid(name, emailOk, password, phone, dateOk, address) && !EmailTaken(old(db.users), email)
             && !ValidUser(Registered(old(db.nextId), name, email, password, phone, dateOfBirth, address, now)))
            ==> r == Fail(ServerError, "Server error during registration")
    ensures r.Ok? <==> RegisterValid(name, emailOk, password, phone, dateOk, address) && !EmailTaken(old(db.users), email)
                       && ValidUser(Registered(old(db.nextId), name, email, password, phone, dateOfBirth, address, now))
    ensures r.Fail? ==> db.users == old(db.users) && db.nextId == old(db.nextId)
    ensures r.Ok? ==> db.users == old(db.users) + [Registered(old(db.nextId), name, email, password, phone,
                                                              dateOfBirth, address, now).(password := hash(password))]
                      && db.nextId == old(db.nextId) + 1
    ensures r.Ok? ==> r == Ok(201, ("User registered successfully",
                                    ToJson(Registered(old(db.nextId), name, email, password, phone, dateOfBirth, address, now))))
    ensures r.Ok? ==> EmailTaken(db.users, email)
    ensures db.courses == old(db.courses) && db.feedback == old(db.feedback)
  {
    if !RegisterValid(name, emailOk, password, phone, dateOk, address) {
      return Fail(BadRequest, "Validation failed");
    }
    var existing := IndexWhere(db.users, EmailIs(ToLowerAscii(email)));
    if existing.Some? {
      assert db.users[existing.value].email == ToLowerAscii(email);
      return Fail(BadRequest, "User already exists with this email");
    }
    var candidate := Registered(db.nextId, name, email, password, phone, dateOfBirth, address, now);
    if !ValidUser(candidate) {
      return Fail(ServerError, "Server error during registration");
    }
    CreateUser(db, candidate, hash);
    PasswordNotShown(candidate, hash(password));
    assert db.users[|db.users| - 1].email == ToLowerAscii(email);
    r := Ok(201, ("User registered successfully", ToJson(candidate)));
  }

  /** `User.create(...)` on a document the schema accepts, with a password
      of at least 8 characters: the pre-save hook hashes the password and the
      store appends the document. */
  method CreateUser(db: Db, candidate: User, hash: string -> string)
    requires db.Valid() && ValidUser(candidate) && |candidate.password| >= 8 && candidate.id == db.nextId
    requires forall i :: 0 <= i < |db.users| ==> db.users[i].email != candidate.email
    modifies db
    ensures db.Valid()
    ensures db.users == old(db.users) + [candidate.(password := hash(candidate.password))]
    ensures db.nextId == old(db.nextId) + 1 && db.courses == old(db.courses) && db.feedback == old(db.feedback)
  {
    var doc := new UserDocument.Build(candidate);
    var saved := doc.Save(hash);
    assert doc.record == candidate.(password := hash(candidate.password));
    db.InsertUser(doc.record);
  }

  /** `toJSON` does not depend on the stored password: hashing it, or
      changing it, leaves what the routes send back as it was. */
  lemma PasswordNotShown(u: User, p: string)
    ensures ToJson(u.(password := p)) == ToJson(u)
  {
    var a := ToJson(u.(password := p));
    var b := ToJson(u);
    assert a.Keys == b.Keys;
    forall k | k in a ensures a[k] == b[k] {
    }
  }

  // ---------------------------------------------------------------- login

  /** The validators of both sign-in routes: `isEmail()` and `notEmpty()` on the password. */
  predicate CredentialsValid(emailOk: bool, password: string) {
    emailOk && password != []
  }

  /** `User.findOne({ email })` */
  function FindByEmail(users: seq<User>, email: string): (r: Option<User>)
    ensures r.Some? ==> r.value in users && r.value.email == ToLowerAscii(email)
    ensures r.None? <==> !EmailTaken(users, email)
  {
    match IndexWhere(users, EmailIs(ToLowerAscii(email)))
    case None => None
    case Some(k) => Some(users[k])
  }

  /** `POST /api/auth/login`: unknown address, blocked account, wrong
      password, in that order. `compare(candidate, stored)` is bcrypt's verdict. */
  function Login(users: seq<User>, email: string, emailOk: bool, password: string,
                 compare: (string, string) -> bool): (r: Response<(string, map<string, JsonValue>)>)
    ensures !CredentialsValid(emailOk, password) ==> r == Fail(BadRequest, "Validation failed")
    ensures CredentialsValid(emailOk, password) && !EmailTaken(users, email) ==> r == Fail(Unauthorized, "Invalid credentials")
    ensures r.Ok? ==> exists u :: u in users && u.email == ToLowerAscii(email) && !u.isBlocked
                                 && compare(password, u.password) && r == Ok(200, ("Login successful", ToJson(u)))
    ensures r.Fail? ==> r.status == BadRequest || r.status == Unauthorized
  {
    if !CredentialsValid(emailOk, password) then Fail(BadRequest, "Validation failed")
    else match FindByEmail(users, email)
      case None => Fail(Unauthorized, "Invalid credentials")
      case Some(u) =>
        if u.isBlocked then Fail(Unauthorized, "Your account has been blocked. Please contact administrator.")
        else if !compare(password, u.password) then Fail(Unauthorized, "Invalid credentials")
        else Ok(200, ("Login successful", ToJson(u)))
  }

  /** With unique addresses, signing in succeeds exactly for the account with
      that address when it is not blocked and the password matches it. */
  lemma LoginMeaning(users: seq<User>, email: string, emailOk: bool, password: string,
                     compare: (string, string) -> bool, k: nat)
    requires UsersUnique(users) && k < |users| && users[k].email == ToLowerAscii(email)
    requires CredentialsValid(emailOk, password)
    ensures Login(users, email, emailOk, password, compare).Ok? <==> !users[k].isBlocked && compare(password, users[k].password)
    ensures users[k].isBlocked ==>
              Login(users, email, emailOk, password, compare)
              == Fail(Unauthorized, "Your account has been blocked. Please contact administrator.")
  {
    var u := FindByEmail(users, email).value;
    var i :| 0 <= i < |users| && users[i] == u;
    assert i == k;
  }

  /** An unknown address and a wrong password get the very same reply, so the
      reply does not tell which of the two it was. */
  lemma LoginHidesWhichCheckFailed(users: seq<User>, email: string, other: string, password: string,
                                   compare: (string, string) -> bool)
    requires CredentialsValid(true, password)
    requires !EmailTaken(users, email)
    requires FindByEmail(users, other).Some? && !FindByEmail(users, other).value.isBlocked
    requires !compare(password, FindByEmail(users, other).value.password)
    ensures Login(users, email, true, password, compare) == Login(users, other, true, password, compare)
    ensures Login(users, email, true, password, compare) == Fail(Unauthorized, "Invalid credentials")
  {
  }

  /** A blocked account is turned away before its password is compared:
      the reply is the same whatever bcrypt would say. */
  lemma BlockedBeforePassword(users: seq<User>, email: string, password: string,
                              compare: (string, string) -> bool, other: (string, string) -> bool)
    requires CredentialsValid(true, password)
    requires FindByEmail(users, email).Some? && FindByEmail(users, email).value.isBlocked
    ensures Login(users, email, true, password, compare) == Login(users, email, true, password, other)
    ensures Login(users, email, true, password, compare).Fail?
  {
  }

  // ---------------------------------------------------------------- admin login

  /** `{ email, role: "admin" }` */
  function AdminEmailIs(email: string): User -> bool {
    (u: User) => u.email == ToLowerAscii(email) && u.role == Admin
  }

  /** `POST /api/auth/admin-login`: only admin accounts are looked up, both
      failures share one message, and `isBlocked` is not consulted. */
  function AdminLogin(users: seq<User>, email: string, emailOk: bool, password: string,
                      compare: (string, string) -> bool): (r: Response<(string, map<string, JsonValue>)>)
    ensures !CredentialsValid(emailOk, password) ==> r == Fail(BadRequest, "Validation failed")
    ensures r.Ok? ==> exists u :: u in users && u.email == ToLowerAscii(email) && u.role == Admin
                                 && compare(password, u.password) && r == Ok(200, ("Admin login successful", ToJson(u)))
    ensures r.Fail? && CredentialsValid(emailOk, password) ==> r == Fail(Unauthorized, "Invalid admin credentials")
  {
    if !CredentialsValid(emailOk, password) then Fail(BadRequest, "Validation failed")
    else match IndexWhere(users, AdminEmailIs(email))
      case None => Fail(Unauthorized, "Invalid admin credentials")
      case Some(k) =>
        if !compare(password, users[k].password) then Fail(Unauthorized, "Invalid admin credentials")
        else Ok(200, ("Admin login successful", ToJson(users[k])))
  }

  /** A student account never signs in through the admin route, and an
      admin account does whenever its password matches, blocked or not. */
  lemma AdminLoginMeaning(users: seq<User>, email: string, password: string,
                          compare: (string, string) -> bool, k: nat)
    requires UsersUnique(users) && k < |users| && users[k].email == ToLowerAscii(email)
    requires CredentialsValid(true, password)
    ensures users[k].role == Student ==> AdminLogin(users, email, true, password, compare).Fail?
    ensures users[k].role == Admin ==>
              (AdminLogin(users, email, true, password, compare).Ok? <==> compare(password, users[k].password))
  {
    var found := IndexWhere(users, AdminEmailIs(email));
    if found.Some? {
      assert found.value == k;
    }
  }
}
