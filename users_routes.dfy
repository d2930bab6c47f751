/** The signed-in user's own account routes: the partial profile update and
    the password change. The caller is the user `protect` found; the picture
    upload, `isISO8601` and bcrypt are inputs. */
module UsersRoutes {
  import opened Common
  import opened Text
  import opened Seqs
  import opened Models
  import opened Store
  import opened Validators
  import AuthRoutes

  // ---------------------------------------------------------------- profile

  /** The outcome of handing `req.file` to the picture store: no file sent,
      the stored picture's URL, or a failed upload. */
  datatype Upload = NoFile | Uploaded(url: string) | UploadFailed

  /** The validators of `PUT /api/users/profile`: each field is checked only
      when sent; `dateOk` is `isISO8601`'s verdict on a sent date of birth. */
  predicate ProfileValid(name: Option<string>, phone: Option<string>, dateOfBirth: Option<string>, dateOk: bool,
                         address: Option<string>) {
    && (name.Some? ==> TrimmedLengthIn(name.value, 2, 50))
    && (phone.Some? ==> IsPhone(phone.value))
    && (dateOfBirth.Some? ==> dateOk)
    && (address.Some? ==> TrimmedLengthIn(address.value, 5, 200))
  }

  /** A body field is written only when it was sent and is truthy (non-empty). */
  function Truthy(field: Option<string>): Option<string> {
    if field.Some? && field.value != [] then field else None
  }

  /** `findByIdAndUpdate(id, updateData)`: the truthy sanitized fields and the
      uploaded picture replace the stored ones. */
  function Patched(u: User, name: Option<string>, phone: Option<string>, dateOfBirth: Option<string>,
                   address: Option<string>, picture: Option<string>): User {
    u.(name := if name.Some? then name.value else u.name,
       phone := if phone.Some? then phone.value else u.phone,
       dateOfBirth := if dateOfBirth.Some? then dateOfBirth.value else u.dateOfBirth,
       address := if address.Some? then address.value else u.address,
       profilePicture := if picture.Some? then picture.value else u.profilePicture)
  }

  /** The sanitized value of an optional trimmed field. */
  function Trimmed(field: Option<string>): Option<string> {
    if field.Some? then Some(Trim(field.value)) else None
  }

  /** Only the five profile fields can change: id, email, password, role,
      blocked flag and creation time stay, nothing sent changes nothing, and
      applying the same update twice is applying it once. */
  lemma PatchedKeepsAccount(u: User, name: Option<string>, phone: Option<string>, dateOfBirth: Option<string>,
                            address: Option<string>, picture: Option<string>)
    ensures var v := Patched(u, name, phone, dateOfBirth, address, picture);
            && v.id == u.id && v.email == u.email && v.password == u.password && v.role == u.role
            && v.isBlocked == u.isBlocked && v.createdAt == u.createdAt
    ensures Patched(u, None, None, None, None, None) == u
    ensures Patched(Patched(u, name, phone, dateOfBirth, address, picture), name, phone, dateOfBirth, address, picture)
            == Patched(u, name, phone, dateOfBirth, address, picture)
  {
  }

  /** Whatever passes the validators keeps a valid user valid. */
  lemma PatchedIsValid(u: User, name: Option<string>, phone: Option<string>, dateOfBirth: Option<string>, dateOk: bool,
                       address: Option<string>, picture: Option<string>)
    requires ValidUser(u) && ProfileValid(name, phone, dateOfBirth, dateOk, address)
    ensures ValidUser(Patched(u, Truthy(Trimmed(name)), Truthy(phone), Truthy(dateOfBirth),
                              Truthy(Trimmed(address)), picture))
  {
    if name.Some? {
      TrimIdempotent(name.value);
      TrimmedIff(Trim(name.value));
    }
  }

  /** `const updateData = {}` and the four `if (field)` assignments: each
      field is written when its sanitized value is sent and non-empty. */
  method UpdateData(name: Option<string>, phone: Option<string>, dateOfBirth: Option<string>, address: Option<string>)
      returns (newName: Option<string>, newPhone: Option<string>, newDate: Option<string>, newAddress: Option<string>)
    ensures newName == Truthy(Trimmed(name)) && newPhone == Truthy(phone)
    ensures newDate == Truthy(dateOfBirth) && newAddress == Truthy(Trimmed(address))
  {
    newName, newPhone, newDate, newAddress := None, None, None, None;
    if name.Some? && Trim(name.value) != [] { newName := Some(Trim(name.value)); }
    if phone.Some? && phone.value != [] { newPhone := phone; }
    if dateOfBirth.Some? && dateOfBirth.value != [] { newDate := dateOfBirth; }
    if address.Some? && Trim(address.value) != [] { newAddress := Some(Trim(address.value)); }
  }

  /** `PUT /api/users/profile` */
  method UpdateProfile(db: Db, me: User, name: Option<string>, phone: Option<string>, dateOfBirth: Option<string>,
                       dateOk: bool, address: Option<string>, upload: Upload)
      returns (r: Response<(string, map<string, JsonValue>)>)
    requires db.Valid() && me in db.users
    modifies db
    ensures db.Valid()
    ensures !ProfileValid(name, phone, dateOfBirth, dateOk, address) ==> r == Fail(BadRequest, "Validation failed")
    ensures ProfileValid(name, phone, dateOfBirth, dateOk, address) && upload.UploadFailed?
            ==> r == Fail(BadRequest, "Error uploading profile picture")
    ensures r.Ok? <==> ProfileValid(name, phone, dateOfBirth, dateOk, address) && !upload.UploadFailed?
    ensures r.Fail? ==> db.users == old(db.users)
    ensures r.Ok? ==> exists k :: 0 <= k < |old(db.users)| && old(db.users)[k] == me
                        && db.users == old(db.users)[k := Patched(me, Truthy(Trimmed(name)), Truthy(phone),
                                                                  Truthy(dateOfBirth), Truthy(Trimmed(address)),
                                                                  if upload.Uploaded? then Some(upload.url) else None)]
                        && r == Ok(200, ("Profile updated successfully", ToJson(db.users[k])))
    ensures db.courses == old(db.courses) && db.feedback == old(db.feedback) && db.nextId == old(db.nextId)
  {
    if !ProfileValid(name, phone, dateOfBirth, dateOk, address) {
      return Fail(BadRequest, "Validation failed");
    }
    var newName, newPhone, newDate, newAddress := UpdateData(name, phone, dateOfBirth, address);
    var picture: Option<string> := None;
    match upload {
      case NoFile =>
      case Uploaded(url) => picture := Some(url);
      case UploadFailed => return Fail(BadRequest, "Error uploading profile picture");
    }
    assert picture == if upload.Uploaded? then Some(upload.url) else None;
    var k :| 0 <= k < |db.users| && db.users[k] == me;
    assert ValidUser(db.users[k]);
    var updated := Patched(me, newName, newPhone, newDate, newAddress, picture);
    PatchedIsValid(me, name, phone, dateOfBirth, dateOk, address, picture);
    assert ValidUser(updated) && updated.id == me.id && updated.email == me.email && updated.role == me.role;
    ghost var before := db.users;
    db.ReplaceUserAt(k, updated);
    assert db.users == before[k := updated] && db.users[k] == updated;
    r := Ok(200, ("Profile updated successfully", ToJson(updated)));
  }

  // ---------------------------------------------------------------- password

  /** The validators of `PUT /api/users/change-password`. */
  predicate ChangeValid(currentPassword: string, newPassword: string) {
    currentPassword != [] && PasswordAccepted(newPassword)
  }

  /** `PUT /api/users/change-password`: the current password must match the
      stored hash; the new one is set on the document and saved, so the hook
      hashes it. */
  method ChangePassword(db: Db, me: User, currentPassword: string, newPassword: string,
                        compare: (string, string) -> bool, hash: string -> string) returns (r: Response<string>)
    requires db.Valid() && me in db.users
    modifies db
    ensures db.Valid()
    ensures !ChangeValid(currentPassword, newPassword) ==> r == Fail(BadRequest, "Validation failed")
    ensures ChangeValid(currentPassword, newPassword) && !compare(currentPassword, me.password)
            ==> r == Fail(BadRequest, "Current password is incorrect")
    ensures r.Ok? <==> ChangeValid(currentPassword, newPassword) && compare(currentPassword, me.password)
    ensures r.Fail? ==> db.users == old(db.users)
    ensures r.Ok? ==> r == Ok(200, "Password changed successfully")
    ensures r.Ok? ==> exists k :: 0 <= k < |old(db.users)| && old(db.users)[k] == me
                        && db.users == old(db.users)[k := me.(password := hash(newPassword))]
    ensures db.courses == old(db.courses) && db.feedback == old(db.feedback) && db.nextId == old(db.nextId)
  {
    if !ChangeValid(currentPassword, newPassword) {
      return Fail(BadRequest, "Validation failed");
    }
    var k :| 0 <= k < |db.users| && db.users[k] == me;
    if !compare(currentPassword, db.users[k].password) {
      return Fail(BadRequest, "Current password is incorrect");
    }
    var doc := new UserDocument.Load(db.users[k]);
    doc.SetPassword(newPassword);
    var saved := doc.Save(hash);
    assert doc.record == me.(password := hash(newPassword));
    db.ReplaceUserAt(k, doc.record);
    r := Ok(200, "Password changed successfully");
  }

  /** After a change, bcrypt accepts the new password against what is
      stored, and what the routes send back about the user is as before. */
  lemma ChangedPasswordOpens(u: User, newPassword: string, compare: (string, string) -> bool, hash: string -> string)
    requires forall p :: compare(p, hash(p))
    ensures compare(newPassword, u.(password := hash(newPassword)).password)
    ensures ToJson(u.(password := hash(newPassword))) == ToJson(u)
  {
    AuthRoutes.PasswordNotShown(u, hash(newPassword));
  }
}
