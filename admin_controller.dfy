/**
 * src/controllers/admin.controller.js: doctor and staff accounts (each a
 * profile row linked to a login row in `users`), the clinic settings row,
 * and the logo and signature upload.
 *
 * Request fields are `Nullable`: `None` for a field the body leaves out,
 * which the driver writes as NULL. A field is blank when it is left out or
 * empty, as `!value` tests it.
 */
module AdminController {
  import opened Wrappers
  import opened Text
  import opened Records
  import opened Http
  import opened Database
  import opened UploadMiddleware
  import Settings

  /** `!value`: left out, or empty. */
  predicate Blank(value: Nullable) {
    value.None? || value.value == ""
  }

  /** The destructuring default `status = 'Active'`, which applies only to a status left out. */
  function StatusOrActive(status: Nullable): (r: Nullable)
    ensures status.None? ==> r == Some("Active")
    ensures status.Some? ==> r == status
  {
    if status.None? then Some("Active") else status
  }

  /** `UPDATE users SET email = ?, name = ?, status = ? [, password = ?] WHERE id = ?`. */
  function RewriteAccount(users: seq<User>, id: Id, email: Nullable, name: Nullable, status: Nullable,
                          password: Option<string>): (r: seq<User>)
    ensures |r| == |users|
    ensures forall k :: 0 <= k < |r| && users[k].id == id ==>
      r[k] == users[k].(email := email, name := name, status := status, password := password.GetOr(users[k].password))
    ensures forall k :: 0 <= k < |r| && users[k].id != id ==> r[k] == users[k]
  {
    UpdateWhere(users, (u: User) => u.id == id,
                (u: User) => u.(email := email, name := name, status := status, password := password.GetOr(u.password)))
  }

  /** `UPDATE users SET status = ? WHERE id = ?`. */
  function SetUserStatus(users: seq<User>, id: Id, status: Nullable): (r: seq<User>)
    ensures |r| == |users|
    ensures forall k :: 0 <= k < |r| && users[k].id == id ==> r[k] == users[k].(status := status)
    ensures forall k :: 0 <= k < |r| && users[k].id != id ==> r[k] == users[k]
  {
    UpdateWhere(users, (u: User) => u.id == id, (u: User) => u.(status := status))
  }

  /** `DELETE FROM users WHERE id = ?`. */
  function DropUser(users: seq<User>, id: Id): seq<User> {
    DeleteWhere(users, (u: User) => u.id == id)
  }

  // ---------------------------------------------------------------------
  // Doctors
  // ---------------------------------------------------------------------

  /** The fields of an add- or update-doctor request. */
  datatype DoctorForm = DoctorForm(
    name: Nullable, mobile: Nullable, email: Nullable, specialization: Nullable,
    fee: Option<int>, username: Nullable, password: Nullable, status: Nullable)

  predicate DoctorFieldsMissing(f: DoctorForm) {
    Blank(f.name) || Blank(f.mobile) || Blank(f.email) || Blank(f.username) || Blank(f.password)
  }

  /** `SELECT id FROM doctors WHERE username = ? OR email = ?`: the first such doctor. */
  function DoctorWithCredentials(doctors: seq<Doctor>, username: string, email: string): Option<nat> {
    FirstWhere(doctors, (d: Doctor) => d.username == Some(username) || d.email == Some(email))
  }

  /** `specialization || 'General Medicine'`. */
  function SpecializationOrDefault(specialization: Nullable): string {
    if Blank(specialization) then "General Medicine" else specialization.value
  }

  /**
   * `addDoctor`: 400 when a required field is blank or a doctor already has
   * the username or the email; otherwise a DOCTOR login and a doctor
   * profile linked to it.
   */
  function NewDoctor(t: Tables, f: DoctorForm, hash: string -> string): Outcome {
    if DoctorFieldsMissing(f) then Outcome(BadRequest, t)
    else if DoctorWithCredentials(t.doctors, f.username.value, f.email.value).Some? then Outcome(BadRequest, t)
    else
      var status := StatusOrActive(f.status);
      var user := User(t.nextUserId, f.email, hash(f.password.value), f.name, "DOCTOR", status);
      var doctor := Doctor(t.nextDoctorId, t.nextUserId, f.name, f.mobile, f.email,
                           Some(SpecializationOrDefault(f.specialization)),
                           f.fee.GetOr(0), f.username, status);
      Outcome(Created, t.(users := t.users + [user], nextUserId := t.nextUserId + 1,
                          doctors := t.doctors + [doctor], nextDoctorId := t.nextDoctorId + 1))
  }

  method AddDoctor(db: Clinic, f: DoctorForm, hash: string -> string) returns (status: Status)
    modifies db`users, db`nextUserId, db`doctors, db`nextDoctorId
    ensures Outcome(status, db.Snapshot()) == NewDoctor(old(db.Snapshot()), f, hash)
  {
    if DoctorFieldsMissing(f) {
      return BadRequest;
    }
    var existing := DoctorWithCredentials(db.doctors, f.username.value, f.email.value);
    if existing.Some? {
      return BadRequest;
    }
    ghost var before := db.Snapshot();
    InsertDoctor(db, f, hash);
    assert NewDoctor(before, f, hash) == Outcome(Created, db.Snapshot());
    return Created;
  }

  /** The two inserts of `addDoctor` once the checks have passed. */
  method InsertDoctor(db: Clinic, f: DoctorForm, hash: string -> string)
    requires !DoctorFieldsMissing(f)
    modifies db`users, db`nextUserId, db`doctors, db`nextDoctorId
    ensures var status := StatusOrActive(f.status);
      db.Snapshot() == old(db.Snapshot()).(
        users := old(db.users) + [User(old(db.nextUserId), f.email, hash(f.password.value), f.name, "DOCTOR", status)],
        nextUserId := old(db.nextUserId) + 1,
        doctors := old(db.doctors) + [Doctor(old(db.nextDoctorId), old(db.nextUserId), f.name, f.mobile, f.email,
                                             Some(SpecializationOrDefault(f.specialization)), f.fee.GetOr(0),
                                             f.username, status)],
        nextDoctorId := old(db.nextDoctorId) + 1)
  {
    var status := StatusOrActive(f.status);
    var user := User(db.nextUserId, f.email, hash(f.password.value), f.name, "DOCTOR", status);
    var doctor := Doctor(db.nextDoctorId, db.nextUserId, f.name, f.mobile, f.email,
                         Some(SpecializationOrDefault(f.specialization)),
                         f.fee.GetOr(0), f.username, status);
    db.users, db.nextUserId, db.doctors, db.nextDoctorId :=
      db.users + [user], db.nextUserId + 1, db.doctors + [doctor], db.nextDoctorId + 1;
  }

  /**
   * `addDoctor` refuses, changing nothing, exactly when a required field is
   * blank or the username or email is taken by a doctor; otherwise it adds
   * one DOCTOR login with the hashed password and one profile linked to it,
   * with fee 0, specialization "General Medicine" and status "Active" when
   * those are not given.
   */
  lemma NewDoctorCases(t: Tables, f: DoctorForm, hash: string -> string)
    ensures var o := NewDoctor(t, f, hash);
      && (o.status == BadRequest <==>
            DoctorFieldsMissing(f)
            || exists k :: 0 <= k < |t.doctors| && (t.doctors[k].username == f.username || t.doctors[k].email == f.email))
      && (o.status == BadRequest ==> o.tables == t)
      && (o.status != BadRequest ==>
            && o.status == Created
            && o.tables == t.(users := o.tables.users, nextUserId := t.nextUserId + 1,
                              doctors := o.tables.doctors, nextDoctorId := t.nextDoctorId + 1)
            && |o.tables.users| == |t.users| + 1 && o.tables.users[..|t.users|] == t.users
            && |o.tables.doctors| == |t.doctors| + 1 && o.tables.doctors[..|t.doctors|] == t.doctors
            && var user := o.tables.users[|t.users|];
               var doctor := o.tables.doctors[|t.doctors|];
               && user.role == "DOCTOR" && user.password == hash(f.password.value)
               && doctor.userId == user.id && user.id == t.nextUserId
               && doctor.username == f.username && doctor.email == f.email && user.email == f.email
               && doctor.status == user.status
               && (f.fee.None? ==> doctor.fee == 0)
               && (Blank(f.specialization) ==> doctor.specialization == Some("General Medicine"))
               && (f.status.None? ==> doctor.status == Some("Active")))
  {
    var o := NewDoctor(t, f, hash);
    if !DoctorFieldsMissing(f) {
      var found := DoctorWithCredentials(t.doctors, f.username.value, f.email.value);
      if found.Some? {
        assert t.doctors[found.value].username == f.username || t.doctors[found.value].email == f.email;
      } else {
        assert o.tables.users[..|t.users|] == t.users;
        assert o.tables.doctors[..|t.doctors|] == t.doctors;
      }
    }
  }

  /** No two doctors share a username, and no two share an email (NULLs aside). */
  predicate DoctorCredentialsUnique(doctors: seq<Doctor>) {
    forall i, j :: 0 <= i < |doctors| && 0 <= j < |doctors| && i != j ==>
      (doctors[i].username.Some? ==> doctors[i].username != doctors[j].username)
      && (doctors[i].email.Some? ==> doctors[i].email != doctors[j].email)
  }

  /** Adding doctors one at a time keeps usernames and emails unique among doctors. */
  lemma NewDoctorKeepsCredentialsUnique(t: Tables, f: DoctorForm, hash: string -> string)
    requires DoctorCredentialsUnique(t.doctors)
    ensures DoctorCredentialsUnique(NewDoctor(t, f, hash).tables.doctors)
  {
    var o := NewDoctor(t, f, hash);
    if o.status == Created {
      NewDoctorCases(t, f, hash);
      var d := o.tables.doctors;
      forall i, j | 0 <= i < |d| && 0 <= j < |d| && i != j
        ensures (d[i].username.Some? ==> d[i].username != d[j].username)
             && (d[i].email.Some? ==> d[i].email != d[j].email)
      {
        if i < |t.doctors| && j < |t.doctors| {
          assert d[i] == t.doctors[i] && d[j] == t.doctors[j];
        } else if i < |t.doctors| {
          assert d[i] == t.doctors[i];
        } else {
          assert d[j] == t.doctors[j];
        }
      }
    }
  }

  /** `UPDATE doctors SET name = ?, ..., status = ? [, consultation_fee = ?] WHERE id = ?`. */
  function RewriteDoctor(doctors: seq<Doctor>, id: Id, f: DoctorForm): (r: seq<Doctor>)
    ensures |r| == |doctors|
    ensures forall k :: 0 <= k < |r| && doctors[k].id == id ==>
      r[k] == doctors[k].(name := f.name, mobile := f.mobile, email := f.email, specialization := f.specialization,
                          username := f.username, status := f.status, fee := f.fee.GetOr(doctors[k].fee))
    ensures forall k :: 0 <= k < |r| && doctors[k].id != id ==> r[k] == doctors[k]
  {
    UpdateWhere(doctors, (d: Doctor) => d.id == id,
                (d: Doctor) => d.(name := f.name, mobile := f.mobile, email := f.email, specialization := f.specialization,
                                  username := f.username, status := f.status, fee := f.fee.GetOr(d.fee)))
  }

  /** The new password, hashed, when one is given. */
  function NewPassword(password: Nullable, hash: string -> string): Option<string> {
    if Blank(password) then None else Some(hash(password.value))
  }

  /**
   * `updateDoctor`: 404 for an unknown id; otherwise the profile takes the
   * request's fields as given (a field left out becomes NULL), the fee only
   * when one is given, and the linked login its email, name, status and,
   * when one is given, the new password.
   */
  function EditDoctor(t: Tables, id: Id, f: DoctorForm, hash: string -> string): Outcome {
    match DoctorById(t.doctors, id)
    case None => Outcome(NotFound, t)
    case Some(k) =>
      var userId := t.doctors[k].userId;
      var users := if userId != 0 then RewriteAccount(t.users, userId, f.email, f.name, f.status, NewPassword(f.password, hash))
                   else t.users;
      Outcome(Ok, t.(doctors := RewriteDoctor(t.doctors, id, f), users := users))
  }

  method UpdateDoctor(db: Clinic, id: Id, f: DoctorForm, hash: string -> string) returns (status: Status)
    modifies db`doctors, db`users
    ensures Outcome(status, db.Snapshot()) == EditDoctor(old(db.Snapshot()), id, f, hash)
  {
    var found := DoctorById(db.doctors, id);
    if found.None? {
      return NotFound;
    }
    var existing := db.doctors[found.value];
    db.doctors := RewriteDoctor(db.doctors, id, f);
    if existing.userId != 0 {
      var password := NewPassword(f.password, hash);
      db.users := RewriteAccount(db.users, existing.userId, f.email, f.name, f.status, password);
    }
    return Ok;
  }

  /**
   * `updateDoctor` answers 404, changing nothing, exactly for an unknown
   * id. Otherwise only the doctors and users change; the fee is kept when
   * none is given; the linked login's password is kept when none is given;
   * and every other profile and login is untouched.
   */
  lemma EditDoctorCases(t: Tables, id: Id, f: DoctorForm, hash: string -> string)
    ensures var o := EditDoctor(t, id, f, hash);
      && (o.status == NotFound <==> forall k :: 0 <= k < |t.doctors| ==> t.doctors[k].id != id)
      && (o.status == NotFound ==> o.tables == t)
      && (o.status != NotFound ==>
            && o.status == Ok
            && o.tables == t.(doctors := o.tables.doctors, users := o.tables.users)
            && |o.tables.doctors| == |t.doctors| && |o.tables.users| == |t.users|
            && (forall k :: 0 <= k < |t.doctors| ==>
                  (t.doctors[k].id != id ==> o.tables.doctors[k] == t.doctors[k])
                  && (t.doctors[k].id == id ==>
                        && o.tables.doctors[k].status == f.status && o.tables.doctors[k].email == f.email
                        && (f.fee.None? ==> o.tables.doctors[k].fee == t.doctors[k].fee)
                        && (f.fee.Some? ==> o.tables.doctors[k].fee == f.fee.value)))
            && var linked := t.doctors[DoctorById(t.doctors, id).value].userId;
               forall k :: 0 <= k < |t.users| ==>
                 (t.users[k].id != linked || linked == 0 ==> o.tables.users[k] == t.users[k])
                 && (t.users[k].id == linked && linked != 0 ==>
                       && o.tables.users[k].status == f.status && o.tables.users[k].email == f.email
                       && (Blank(f.password) ==> o.tables.users[k].password == t.users[k].password)
                       && (!Blank(f.password) ==> o.tables.users[k].password == hash(f.password.value))))
  {
  }

  /** `DELETE FROM doctors WHERE id = ?`. */
  function DropDoctor(doctors: seq<Doctor>, id: Id): seq<Doctor> {
    DeleteWhere(doctors, (d: Doctor) => d.id == id)
  }

  /** `deleteDoctor`: 404 for an unknown id; otherwise the profile and its linked login are deleted. */
  function RemoveDoctor(t: Tables, id: Id): Outcome {
    match DoctorById(t.doctors, id)
    case None => Outcome(NotFound, t)
    case Some(k) =>
      var userId := t.doctors[k].userId;
      Outcome(Ok, t.(doctors := DropDoctor(t.doctors, id),
                     users := if userId != 0 then DropUser(t.users, userId) else t.users))
  }

  method DeleteDoctor(db: Clinic, id: Id) returns (status: Status)
    modifies db`doctors, db`users
    ensures Outcome(status, db.Snapshot()) == RemoveDoctor(old(db.Snapshot()), id)
  {
    var found := DoctorById(db.doctors, id);
    if found.None? {
      return NotFound;
    }
    var userId := db.doctors[found.value].userId;
    db.doctors := DropDoctor(db.doctors, id);
    if userId != 0 {
      db.users := DropUser(db.users, userId);
    }
    return Ok;
  }

  /**
   * `deleteDoctor` answers 404, changing nothing, exactly for an unknown id;
   * otherwise no profile with the id and no login it was linked to remain,
   * and every other profile and login does.
   */
  lemma RemoveDoctorCases(t: Tables, id: Id)
    ensures var o := RemoveDoctor(t, id);
      && (o.status == NotFound <==> forall k :: 0 <= k < |t.doctors| ==> t.doctors[k].id != id)
      && (o.status == NotFound ==> o.tables == t)
      && (o.status != NotFound ==>
            var linked := t.doctors[DoctorById(t.doctors, id).value].userId;
            && o.status == Ok
            && o.tables == t.(doctors := o.tables.doctors, users := o.tables.users)
            && (forall d :: d in o.tables.doctors ==> d in t.doctors && d.id != id)
            && (forall k :: 0 <= k < |t.doctors| && t.doctors[k].id != id ==> t.doctors[k] in o.tables.doctors)
            && (forall u :: u in o.tables.users ==> u in t.users && (linked != 0 ==> u.id != linked))
            && (forall k :: 0 <= k < |t.users| && (linked == 0 || t.users[k].id != linked) ==>
                  t.users[k] in o.tables.users))
  {
  }

  /** `UPDATE doctors SET status = ? WHERE id = ?`. */
  function SetDoctorStatus(doctors: seq<Doctor>, id: Id, status: Nullable): (r: seq<Doctor>)
    ensures |r| == |doctors|
    ensures forall k :: 0 <= k < |r| ==> r[k] == if doctors[k].id == id then doctors[k].(status := status) else doctors[k]
  {
    UpdateWhere(doctors, (d: Doctor) => d.id == id, (d: Doctor) => d.(status := status))
  }

  /**
   * `toggleDoctorStatus`: always 200; the profile takes the status, then
   * the login linked to the (first) profile with the id takes it too.
   */
  function SwitchDoctorStatus(t: Tables, id: Id, status: Nullable): Outcome {
    var doctors := SetDoctorStatus(t.doctors, id, status);
    var users := match DoctorById(doctors, id)
                 case None => t.users
                 case Some(k) => if doctors[k].userId != 0 then SetUserStatus(t.users, doctors[k].userId, status) else t.users;
    Outcome(Ok, t.(doctors := doctors, users := users))
  }

  method ToggleDoctorStatus(db: Clinic, id: Id, status: Nullable) returns (result: Status)
    modifies db`doctors, db`users
    ensures Outcome(result, db.Snapshot()) == SwitchDoctorStatus(old(db.Snapshot()), id, status)
  {
    db.doctors := SetDoctorStatus(db.doctors, id, status);
    var found := DoctorById(db.doctors, id);
    if found.Some? && db.doctors[found.value].userId != 0 {
      db.users := SetUserStatus(db.users, db.doctors[found.value].userId, status);
    }
    return Ok;
  }

  /**
   * After the toggle every profile with the id and every login linked to
   * it carry the same status; nothing else changes.
   */
  lemma SwitchDoctorStatusMeaning(t: Tables, id: Id, status: Nullable)
    ensures var o := SwitchDoctorStatus(t, id, status);
      && o.status == Ok
      && o.tables == t.(doctors := o.tables.doctors, users := o.tables.users)
      && (forall k :: 0 <= k < |t.doctors| ==>
            o.tables.doctors[k] == if t.doctors[k].id == id then t.doctors[k].(status := status) else t.doctors[k])
      && (DoctorById(t.doctors, id).None? ==> o.tables.users == t.users)
      && (DoctorById(t.doctors, id).Some? ==>
            var linked := t.doctors[DoctorById(t.doctors, id).value].userId;
            forall k :: 0 <= k < |t.users| ==>
              o.tables.users[k] == if linked != 0 && t.users[k].id == linked then t.users[k].(status := status) else t.users[k])
  {
    var doctors := SetDoctorStatus(t.doctors, id, status);
    assert forall k :: 0 <= k < |t.doctors| ==> doctors[k].id == t.doctors[k].id && doctors[k].userId == t.doctors[k].userId;
    assert DoctorById(doctors, id) == DoctorById(t.doctors, id) by {
      SameIdsSameFirst(t.doctors, doctors, id);
    }
  }

  /** Two doctor tables with the same ids row by row find the same first row for an id. */
  lemma {:induction false} SameIdsSameFirst(a: seq<Doctor>, b: seq<Doctor>, id: Id)
    requires |a| == |b| && forall k :: 0 <= k < |a| ==> a[k].id == b[k].id
    ensures DoctorById(a, id) == DoctorById(b, id)
  {
    if a != [] && a[0].id != id {
      SameIdsSameFirst(a[1..], b[1..], id);
    }
  }

  // ---------------------------------------------------------------------
  // Staff
  // ---------------------------------------------------------------------

  /** The fields of an add- or update-staff request. */
  datatype StaffForm = StaffForm(name: Nullable, mobile: Nullable, email: Nullable, password: Nullable, status: Nullable)

  predicate StaffFieldsMissing(f: StaffForm) {
    Blank(f.name) || Blank(f.mobile) || Blank(f.email) || Blank(f.password)
  }

  /** `SELECT id FROM users WHERE email = ?`: the first such login. */
  function UserWithEmail(users: seq<User>, email: string): Option<nat> {
    FirstWhere(users, (u: User) => u.email == Some(email))
  }

  /**
   * `addStaff`: 400 when a field is blank or a login already has the email;
   * otherwise a STAFF login and a staff profile linked to it whose username
   * is the email.
   */
  function NewStaff(t: Tables, f: StaffForm, hash: string -> string): Outcome {
    if StaffFieldsMissing(f) then Outcome(BadRequest, t)
    else if UserWithEmail(t.users, f.email.value).Some? then Outcome(BadRequest, t)
    else
      var status := StatusOrActive(f.status);
      var user := User(t.nextUserId, f.email, hash(f.password.value), f.name, "STAFF", status);
      var member := StaffMember(t.nextStaffId, t.nextUserId, f.name.value, f.mobile.value, f.email.value, status);
      Outcome(Created, t.(users := t.users + [user], nextUserId := t.nextUserId + 1,
                          staff := t.staff + [member], nextStaffId := t.nextStaffId + 1))
  }

  method AddStaff(db: Clinic, f: StaffForm, hash: string -> string) returns (status: Status)
    modifies db`users, db`nextUserId, db`staff, db`nextStaffId
    ensures Outcome(status, db.Snapshot()) == NewStaff(old(db.Snapshot()), f, hash)
  {
    if StaffFieldsMissing(f) {
      return BadRequest;
    }
    var existing := UserWithEmail(db.users, f.email.value);
    if existing.Some? {
      return BadRequest;
    }
    ghost var before := db.Snapshot();
    InsertStaff(db, f, hash);
    assert NewStaff(before, f, hash) == Outcome(Created, db.Snapshot());
    return Created;
  }

  /** The two inserts of `addStaff` once the checks have passed. */
  method InsertStaff(db: Clinic, f: StaffForm, hash: string -> string)
    requires !StaffFieldsMissing(f)
    modifies db`users, db`nextUserId, db`staff, db`nextStaffId
    ensures var status := StatusOrActive(f.status);
      db.Snapshot() == old(db.Snapshot()).(
        users := old(db.users) + [User(old(db.nextUserId), f.email, hash(f.password.value), f.name, "STAFF", status)],
        nextUserId := old(db.nextUserId) + 1,
        staff := old(db.staff) + [StaffMember(old(db.nextStaffId), old(db.nextUserId), f.name.value, f.mobile.value,
                                              f.email.value, status)],
        nextStaffId := old(db.nextStaffId) + 1)
  {
    var status := StatusOrActive(f.status);
    var user := User(db.nextUserId, f.email, hash(f.password.value), f.name, "STAFF", status);
    var member := StaffMember(db.nextStaffId, db.nextUserId, f.name.value, f.mobile.value, f.email.value, status);
    db.users, db.nextUserId, db.staff, db.nextStaffId :=
      db.users + [user], db.nextUserId + 1, db.staff + [member], db.nextStaffId + 1;
  }

  /**
   * `addStaff` refuses, changing nothing, exactly when a field is blank or
   * some login has the email; otherwise it adds one STAFF login and one
   * linked profile whose username is the email.
   */
  lemma NewStaffCases(t: Tables, f: StaffForm, hash: string -> string)
    ensures var o := NewStaff(t, f, hash);
      && (o.status == BadRequest <==>
            StaffFieldsMissing(f) || exists k :: 0 <= k < |t.users| && t.users[k].email == f.email)
      && (o.status == BadRequest ==> o.tables == t)
      && (o.status != BadRequest ==>
            && o.status == Created
            && o.tables == t.(users := o.tables.users, nextUserId := t.nextUserId + 1,
                              staff := o.tables.staff, nextStaffId := t.nextStaffId + 1)
            && |o.tables.users| == |t.users| + 1 && o.tables.users[..|t.users|] == t.users
            && |o.tables.staff| == |t.staff| + 1 && o.tables.staff[..|t.staff|] == t.staff
            && var user := o.tables.users[|t.users|];
               var member := o.tables.staff[|t.staff|];
               && user.role == "STAFF" && user.email == f.email && user.password == hash(f.password.value)
               && member.userId == user.id && Some(member.username) == f.email
               && member.status == user.status && (f.status.None? ==> member.status == Some("Active")))
  {
    var o := NewStaff(t, f, hash);
    if !StaffFieldsMissing(f) {
      var found := UserWithEmail(t.users, f.email.value);
      if found.Some? {
        assert t.users[found.value].email == f.email;
      } else {
        assert o.tables.users[..|t.users|] == t.users;
        assert o.tables.staff[..|t.staff|] == t.staff;
      }
    }
  }

  /** No two logins share an email (NULLs aside). */
  predicate UserEmailsUnique(users: seq<User>) {
    forall i, j :: 0 <= i < |users| && 0 <= j < |users| && i != j && users[i].email.Some? ==> users[i].email != users[j].email
  }

  /** Adding staff keeps login emails unique. */
  lemma NewStaffKeepsEmailsUnique(t: Tables, f: StaffForm, hash: string -> string)
    requires UserEmailsUnique(t.users)
    ensures UserEmailsUnique(NewStaff(t, f, hash).tables.users)
  {
    var o := NewStaff(t, f, hash);
    if o.status == Created {
      NewStaffCases(t, f, hash);
      var u := o.tables.users;
      forall i, j | 0 <= i < |u| && 0 <= j < |u| && i != j && u[i].email.Some?
        ensures u[i].email != u[j].email
      {
        if i < |t.users| && j < |t.users| {
          assert u[i] == t.users[i] && u[j] == t.users[j];
        } else if i < |t.users| {
          assert u[i] == t.users[i];
        } else {
          assert u[j] == t.users[j];
        }
      }
    }
  }

  /** `status || existing.status || 'Active'`. */
  function FinalStatus(given: Nullable, existing: Nullable): (r: string)
    ensures !Blank(given) ==> r == given.value
    ensures Blank(given) && !Blank(existing) ==> r == existing.value
    ensures Blank(given) && Blank(existing) ==> r == "Active"
  {
    if !Blank(given) then given.value else if !Blank(existing) then existing.value else "Active"
  }

  /** The two statuses `updateStaff` accepts. */
  predicate StaffStatusAllowed(status: string) {
    status == "Active" || status == "Inactive"
  }

  /** `SELECT * FROM staff WHERE id = ?`: the first row with the id. */
  function StaffById(staff: seq<StaffMember>, id: Id): Option<nat> {
    FirstWhere(staff, (s: StaffMember) => s.id == id)
  }

  /** `UPDATE staff SET name = ?, mobile = ?, username = ?, status = ? WHERE id = ?`. */
  function RewriteStaff(staff: seq<StaffMember>, id: Id, name: string, mobile: string, username: string,
                        status: string): (r: seq<StaffMember>)
    ensures |r| == |staff|
    ensures forall k :: 0 <= k < |r| ==>
      r[k] == if staff[k].id == id then staff[k].(name := name, mobile := mobile, username := username, status := Some(status))
              else staff[k]
  {
    UpdateWhere(staff, (s: StaffMember) => s.id == id,
                (s: StaffMember) => s.(name := name, mobile := mobile, username := username, status := Some(status)))
  }

  /** The new password, hashed, when one is given that is not only whitespace. */
  function NewStaffPassword(password: Nullable, hash: string -> string): Option<string> {
    if password.Some? && !IsBlank(password.value) then Some(hash(password.value)) else None
  }

  /**
   * `updateStaff`: 400 when the name, mobile or email is blank or a given
   * status is neither Active nor Inactive; 404 for an unknown id;
   * otherwise the profile and its linked login take the fields and the
   * final status.
   */
  function EditStaff(t: Tables, id: Id, f: StaffForm, hash: string -> string): Outcome {
    if Blank(f.name) || Blank(f.mobile) || Blank(f.email) then Outcome(BadRequest, t)
    else if !Blank(f.status) && !StaffStatusAllowed(f.status.value) then Outcome(BadRequest, t)
    else
      match StaffById(t.staff, id)
      case None => Outcome(NotFound, t)
      case Some(k) =>
        var before := t.staff[k];
        var final := FinalStatus(f.status, before.status);
        var users := if before.userId != 0 then
                       RewriteAccount(t.users, before.userId, f.email, f.name, Some(final), NewStaffPassword(f.password, hash))
                     else t.users;
        Outcome(Ok, t.(staff := RewriteStaff(t.staff, id, f.name.value, f.mobile.value, f.email.value, final),
                       users := users))
  }

  method UpdateStaff(db: Clinic, id: Id, f: StaffForm, hash: string -> string) returns (status: Status)
    modifies db`staff, db`users
    ensures Outcome(status, db.Snapshot()) == EditStaff(old(db.Snapshot()), id, f, hash)
  {
    if Blank(f.name) || Blank(f.mobile) || Blank(f.email) {
      return BadRequest;
    }
    if !Blank(f.status) && !StaffStatusAllowed(f.status.value) {
      return BadRequest;
    }
    var found := StaffById(db.staff, id);
    if found.None? {
      return NotFound;
    }
    var existing := db.staff[found.value];
    var final := FinalStatus(f.status, existing.status);
    db.staff := RewriteStaff(db.staff, id, f.name.value, f.mobile.value, f.email.value, final);
    if existing.userId != 0 {
      db.users := RewriteAccount(db.users, existing.userId, f.email, f.name, Some(final), NewStaffPassword(f.password, hash));
    }
    return Ok;
  }

  /**
   * `updateStaff` refuses with 400 exactly on a blank name, mobile or email
   * or a status outside Active/Inactive, and with 404 exactly for an
   * unknown id, changing nothing. Otherwise the profile's status is the
   * given one, else its old one, else Active, so a profile whose status was
   * Active, Inactive or blank keeps an allowed status; the linked login
   * takes the name, and its password becomes the hash of the given one
   * exactly when that is not only whitespace, and is kept otherwise.
   */
  lemma EditStaffCases(t: Tables, id: Id, f: StaffForm, hash: string -> string)
    ensures var o := EditStaff(t, id, f, hash);
      && (o.status == BadRequest <==>
            Blank(f.name) || Blank(f.mobile) || Blank(f.email) || (!Blank(f.status) && !StaffStatusAllowed(f.status.value)))
      && (o.status == NotFound <==>
            !(Blank(f.name) || Blank(f.mobile) || Blank(f.email) || (!Blank(f.status) && !StaffStatusAllowed(f.status.value)))
            && forall k :: 0 <= k < |t.staff| ==> t.staff[k].id != id)
      && (o.status != Ok ==> o.tables == t)
      && (o.status == Ok ==>
            var before := t.staff[StaffById(t.staff, id).value];
            var final := FinalStatus(f.status, before.status);
            && o.tables == t.(staff := o.tables.staff, users := o.tables.users)
            && (Blank(before.status) || StaffStatusAllowed(before.status.value) ==> StaffStatusAllowed(final))
            && |o.tables.staff| == |t.staff| && |o.tables.users| == |t.users|
            && (forall k :: 0 <= k < |t.staff| ==>
                  o.tables.staff[k] == if t.staff[k].id == id then
                    t.staff[k].(name := f.name.value, mobile := f.mobile.value, username := f.email.value, status := Some(final))
                  else t.staff[k])
            && (forall k :: 0 <= k < |t.users| ==>
                  (t.users[k].id != before.userId || before.userId == 0 ==> o.tables.users[k] == t.users[k])
                  && (t.users[k].id == before.userId && before.userId != 0 ==>
                        && o.tables.users[k].status == Some(final) && o.tables.users[k].email == f.email
                        && o.tables.users[k].name == f.name
                        && (f.password.None? || IsBlank(f.password.value) ==> o.tables.users[k].password == t.users[k].password)
                        && (f.password.Some? && !IsBlank(f.password.value) ==>
                              o.tables.users[k].password == hash(f.password.value)))))
  {
  }

  /** `DELETE FROM staff WHERE id = ?`. */
  function DropStaff(staff: seq<StaffMember>, id: Id): seq<StaffMember> {
    DeleteWhere(staff, (s: StaffMember) => s.id == id)
  }

  /** `deleteStaff`: 404 for an unknown id; otherwise the profile and its linked login are deleted. */
  function RemoveStaff(t: Tables, id: Id): Outcome {
    match StaffById(t.staff, id)
    case None => Outcome(NotFound, t)
    case Some(k) =>
      var userId := t.staff[k].userId;
      Outcome(Ok, t.(staff := DropStaff(t.staff, id), users := if userId != 0 then DropUser(t.users, userId) else t.users))
  }

  method DeleteStaff(db: Clinic, id: Id) returns (status: Status)
    modifies db`staff, db`users
    ensures Outcome(status, db.Snapshot()) == RemoveStaff(old(db.Snapshot()), id)
  {
    var found := StaffById(db.staff, id);
    if found.None? {
      return NotFound;
    }
    var userId := db.staff[found.value].userId;
    db.staff := DropStaff(db.staff, id);
    if userId != 0 {
      db.users := DropUser(db.users, userId);
    }
    return Ok;
  }

  /**
   * `deleteStaff` answers 404, changing nothing, exactly for an unknown id;
   * otherwise no profile with the id and no login it was linked to remain,
   * and every other profile and login does.
   */
  lemma RemoveStaffCases(t: Tables, id: Id)
    ensures var o := RemoveStaff(t, id);
      && (o.status == NotFound <==> forall k :: 0 <= k < |t.staff| ==> t.staff[k].id != id)
      && (o.status == NotFound ==> o.tables == t)
      && (o.status != NotFound ==>
            var linked := t.staff[StaffById(t.staff, id).value].userId;
            && o.status == Ok
            && o.tables == t.(staff := o.tables.staff, users := o.tables.users)
            && (forall s :: s in o.tables.staff ==> s in t.staff && s.id != id)
            && (forall k :: 0 <= k < |t.staff| && t.staff[k].id != id ==> t.staff[k] in o.tables.staff)
            && (forall u :: u in o.tables.users ==> u in t.users && (linked != 0 ==> u.id != linked))
            && (forall k :: 0 <= k < |t.users| && (linked == 0 || t.users[k].id != linked) ==>
                  t.users[k] in o.tables.users))
  {
  }

  /** `UPDATE staff SET status = ? WHERE id = ?`. */
  function SetStaffStatus(staff: seq<StaffMember>, id: Id, status: Nullable): (r: seq<StaffMember>)
    ensures |r| == |staff|
    ensures forall k :: 0 <= k < |r| ==> r[k] == if staff[k].id == id then staff[k].(status := status) else staff[k]
  {
    UpdateWhere(staff, (s: StaffMember) => s.id == id, (s: StaffMember) => s.(status := status))
  }

  /** `toggleStaffStatus`: always 200; the profile and then its linked login take the status. */
  function SwitchStaffStatus(t: Tables, id: Id, status: Nullable): Outcome {
    var staff := SetStaffStatus(t.staff, id, status);
    var users := match StaffById(staff, id)
                 case None => t.users
                 case Some(k) => if staff[k].userId != 0 then SetUserStatus(t.users, staff[k].userId, status) else t.users;
    Outcome(Ok, t.(staff := staff, users := users))
  }

  method ToggleStaffStatus(db: Clinic, id: Id, status: Nullable) returns (result: Status)
    modifies db`staff, db`users
    ensures Outcome(result, db.Snapshot()) == SwitchStaffStatus(old(db.Snapshot()), id, status)
  {
    db.staff := SetStaffStatus(db.staff, id, status);
    var found := StaffById(db.staff, id);
    if found.Some? && db.staff[found.value].userId != 0 {
      db.users := SetUserStatus(db.users, db.staff[found.value].userId, status);
    }
    return Ok;
  }

  /**
   * After the toggle every staff profile with the id and every login
   * linked to it carry the same status; nothing else changes.
   */
  lemma SwitchStaffStatusMeaning(t: Tables, id: Id, status: Nullable)
    ensures var o := SwitchStaffStatus(t, id, status);
      && o.status == Ok
      && o.tables == t.(staff := o.tables.staff, users := o.tables.users)
      && (forall k :: 0 <= k < |t.staff| ==>
            o.tables.staff[k] == if t.staff[k].id == id then t.staff[k].(status := status) else t.staff[k])
      && (StaffById(t.staff, id).None? ==> o.tables.users == t.users)
      && (StaffById(t.staff, id).Some? ==>
            var linked := t.staff[StaffById(t.staff, id).value].userId;
            forall k :: 0 <= k < |t.users| ==>
              o.tables.users[k] == if linked != 0 && t.users[k].id == linked then t.users[k].(status := status) else t.users[k])
  {
    var staff := SetStaffStatus(t.staff, id, status);
    assert StaffById(staff, id) == StaffById(t.staff, id) by {
      SameStaffIdsSameFirst(t.staff, staff, id);
    }
  }

  lemma {:induction false} SameStaffIdsSameFirst(a: seq<StaffMember>, b: seq<StaffMember>, id: Id)
    requires |a| == |b| && forall k :: 0 <= k < |a| ==> a[k].id == b[k].id && a[k].userId == b[k].userId
    ensures StaffById(a, id) == StaffById(b, id)
  {
    if a != [] && a[0].id != id {
      SameStaffIdsSameFirst(a[1..], b[1..], id);
    }
  }

  /** Adding a doctor keeps every id below its counter. */
  lemma NewDoctorKeepsValid(t: Tables, f: DoctorForm, hash: string -> string)
    requires Valid(t)
    ensures Valid(NewDoctor(t, f, hash).tables)
  {
    NewDoctorCases(t, f, hash);
  }

  /** Adding a staff member keeps every id below its counter. */
  lemma NewStaffKeepsValid(t: Tables, f: StaffForm, hash: string -> string)
    requires Valid(t)
    ensures Valid(NewStaff(t, f, hash).tables)
  {
    NewStaffCases(t, f, hash);
  }

  /** Deleting a doctor keeps every id below its counter. */
  lemma RemoveDoctorKeepsValid(t: Tables, id: Id)
    requires Valid(t)
    ensures Valid(RemoveDoctor(t, id).tables)
  {
    var o := RemoveDoctor(t, id);
    forall k | 0 <= k < |o.tables.doctors| ensures 1 <= o.tables.doctors[k].id < t.nextDoctorId {
      assert o.tables.doctors[k] in t.doctors;
    }
    forall k | 0 <= k < |o.tables.users| ensures 1 <= o.tables.users[k].id < t.nextUserId {
      assert o.tables.users[k] in t.users;
    }
  }

  /** Deleting a staff member keeps every id below its counter. */
  lemma RemoveStaffKeepsValid(t: Tables, id: Id)
    requires Valid(t)
    ensures Valid(RemoveStaff(t, id).tables)
  {
    var o := RemoveStaff(t, id);
    forall k | 0 <= k < |o.tables.staff| ensures 1 <= o.tables.staff[k].id < t.nextStaffId {
      assert o.tables.staff[k] in t.staff;
    }
    forall k | 0 <= k < |o.tables.users| ensures 1 <= o.tables.users[k].id < t.nextUserId {
      assert o.tables.users[k] in t.users;
    }
  }

  // ---------------------------------------------------------------------
  // Clinic settings
  // ---------------------------------------------------------------------

  /** The settings row shown, and the tables after showing it. */
  datatype SettingsView = SettingsView(row: SettingsRow, tables: Tables)

  /** `getClinicSettings`: the first row, after inserting a "My Clinic" row when there is none. */
  function ClinicSettings(t: Tables): SettingsView {
    if t.settings == [] then
      var row := SettingsRow(t.nextSettingsId, map["clinic_name" := Some("My Clinic")]);
      SettingsView(row, t.(settings := [row], nextSettingsId := t.nextSettingsId + 1))
    else SettingsView(t.settings[0], t)
  }

  method GetClinicSettings(db: Clinic) returns (row: SettingsRow)
    modifies db`settings, db`nextSettingsId
    ensures SettingsView(row, db.Snapshot()) == ClinicSettings(old(db.Snapshot()))
  {
    if |db.settings| == 0 {
      db.settings := [SettingsRow(db.nextSettingsId, map["clinic_name" := Some("My Clinic")])];
      db.nextSettingsId := db.nextSettingsId + 1;
    }
    row := db.settings[0];
  }

  /**
   * The row shown is the first row afterwards; a default "My Clinic" row is
   * inserted only into an empty table; and showing the settings again
   * shows the same row and changes nothing.
   */
  lemma ClinicSettingsMeaning(t: Tables)
    ensures var v := ClinicSettings(t);
      && |v.tables.settings| >= 1 && v.row == v.tables.settings[0]
      && (t.settings != [] ==> v.tables == t)
      && (t.settings == [] ==> v.tables.settings == [v.row] && v.row.columns == map["clinic_name" := Some("My Clinic")])
      && ClinicSettings(v.tables) == v
  {
  }

  /** `updateClinicSettings`: a partial update of the clinic fields of settings row 1. */
  method UpdateClinicSettings(db: Clinic, body: Settings.Body) returns (status: Status)
    modifies db`settings
    ensures Outcome(status, db.Snapshot()) == Settings.UpdateSettings(old(db.Snapshot()), Settings.ClinicSettingsFields, body)
  {
    status := Settings.WriteSettings(db, Settings.ClinicSettingsFields, body);
  }

  // ---------------------------------------------------------------------
  // Logo and signature upload
  // ---------------------------------------------------------------------

  /** The stored upload: its MIME type and the name it was stored under. */
  datatype UploadedFile = UploadedFile(mimetype: string, filename: string)

  /** The URL the handler records, as written: always under `images`. */
  function ClinicFileUrlAsWritten(filename: string): string {
    "/uploads/images/" + filename
  }

  /** The URL of the folder the upload middleware stored the file in. */
  function ClinicFileUrl(mimetype: string, filename: string): string {
    "/uploads/" + DestinationFolder(mimetype).Name() + "/" + filename
  }

  /**
   * The filter admits PDFs, the middleware stores them under `documents`,
   * and the recorded URL still points under `images`.
   */
  lemma ClinicPdfUrlMisplaced(filename: string)
    ensures FileFilter("application/pdf") && DestinationFolder("application/pdf") == Documents
    ensures ClinicFileUrlAsWritten(filename) != ClinicFileUrl("application/pdf", filename)
  {
    var written := ClinicFileUrlAsWritten(filename);
    var stored := ClinicFileUrl("application/pdf", filename);
    assert written[9] == 'i';
    assert stored == "/uploads/documents/" + filename;
    assert stored[9] == 'd';
  }

  /**
   * For every admitted upload the corrected URL names the stored folder,
   * and it differs from the URL as written exactly for PDFs.
   */
  lemma ClinicFileUrlCorrected(mimetype: string, filename: string)
    requires FileFilter(mimetype)
    ensures ClinicFileUrl(mimetype, filename) == ClinicFileUrlAsWritten(filename) <==> mimetype != "application/pdf"
    ensures mimetype == "application/pdf" ==> ClinicFileUrl(mimetype, filename) == "/uploads/documents/" + filename
  {
    AcceptedNeverOthers(mimetype);
    if mimetype == "application/pdf" {
      ClinicPdfUrlMisplaced(filename);
    } else {
      assert ClinicFileUrl(mimetype, filename) == "/uploads/" + "images" + "/" + filename;
    }
  }

  /** The settings column the upload is recorded in. */
  function UploadColumn(kind: string): (column: string)
    ensures column == "signature_url" <==> kind == "signature"
    ensures column == "logo_url" <==> kind != "signature"
  {
    if kind == "signature" then "signature_url" else "logo_url"
  }

  /** `UPDATE clinic_settings SET <column> = ? WHERE id = 1`. */
  function RecordClinicFile(t: Tables, kind: string, url: string): Tables {
    t.(settings := Settings.AssignWhere(t.settings, 1, [Settings.Assignment(UploadColumn(kind), Some(url))]))
  }

  /**
   * Recording a URL sets the logo or signature column of settings row 1,
   * keeps its other columns, and changes no other row or table.
   */
  lemma RecordClinicFileMeaning(t: Tables, kind: string, url: string)
    ensures var r := RecordClinicFile(t, kind, url);
      && r == t.(settings := r.settings)
      && |r.settings| == |t.settings|
      && forall k :: 0 <= k < |t.settings| ==>
           (t.settings[k].id != 1 ==> r.settings[k] == t.settings[k])
           && (t.settings[k].id == 1 ==> r.settings[k].columns == t.settings[k].columns[UploadColumn(kind) := Some(url)])
  {
    var a := Settings.Assignment(UploadColumn(kind), Some(url));
    forall k | 0 <= k < |t.settings| && t.settings[k].id == 1
      ensures Settings.Assign(t.settings[k].columns, [a]) == t.settings[k].columns[a.column := a.value]
    {
      assert [a][..0] == [];
    }
  }

  /** `uploadClinicFile` as written: 400 without a file; otherwise row 1 records the URL under `images`. */
  function StoreClinicFile(t: Tables, file: Option<UploadedFile>, kind: string): Outcome {
    match file
    case None => Outcome(BadRequest, t)
    case Some(f) => Outcome(Ok, RecordClinicFile(t, kind, ClinicFileUrlAsWritten(f.filename)))
  }

  method UploadClinicFile(db: Clinic, file: Option<UploadedFile>, kind: string) returns (status: Status)
    modifies db`settings
    ensures Outcome(status, db.Snapshot()) == StoreClinicFile(old(db.Snapshot()), file, kind)
  {
    if file.None? {
      return BadRequest;
    }
    var url := ClinicFileUrlAsWritten(file.value.filename);
    db.settings := Settings.AssignWhere(db.settings, 1, [Settings.Assignment(UploadColumn(kind), Some(url))]);
    return Ok;
  }

  /**
   * Without a file nothing changes; with one, settings row 1 records
   * `/uploads/images/<file>` in the logo or signature column, whatever the
   * file's type, keeps its other columns, and no other row or table changes.
   */
  lemma StoreClinicFileMeaning(t: Tables, file: Option<UploadedFile>, kind: string)
    ensures var o := StoreClinicFile(t, file, kind);
      && (o.status == BadRequest <==> file.None?)
      && (file.None? ==> o.tables == t)
      && (file.Some? ==>
            && o.status == Ok
            && o.tables == t.(settings := o.tables.settings)
            && |o.tables.settings| == |t.settings|
            && forall k :: 0 <= k < |t.settings| ==>
                 (t.settings[k].id != 1 ==> o.tables.settings[k] == t.settings[k])
                 && (t.settings[k].id == 1 ==>
                       o.tables.settings[k].columns
                         == t.settings[k].columns[UploadColumn(kind) := Some("/uploads/images/" + file.value.filename)]))
  {
    if file.Some? {
      RecordClinicFileMeaning(t, kind, ClinicFileUrlAsWritten(file.value.filename));
    }
  }

  /** `uploadClinicFile` with the URL corrected to the folder the file was stored in. */
  function StoreClinicFileCorrected(t: Tables, file: Option<UploadedFile>, kind: string): Outcome {
    match file
    case None => Outcome(BadRequest, t)
    case Some(f) => Outcome(Ok, RecordClinicFile(t, kind, ClinicFileUrl(f.mimetype, f.filename)))
  }

  /**
   * The corrected handler answers as the written one and differs from it
   * only for PDFs, whose URL it records under `documents`.
   */
  lemma StoreClinicFileCorrectedMeaning(t: Tables, file: Option<UploadedFile>, kind: string)
    requires file.Some? ==> FileFilter(file.value.mimetype)
    ensures var o := StoreClinicFileCorrected(t, file, kind);
      && o.status == StoreClinicFile(t, file, kind).status
      && (file.None? || file.value.mimetype != "application/pdf" ==> o == StoreClinicFile(t, file, kind))
      && (file.Some? && file.value.mimetype == "application/pdf" ==>
            o.tables == RecordClinicFile(t, kind, "/uploads/documents/" + file.value.filename))
  {
    if file.Some? {
      ClinicFileUrlCorrected(file.value.mimetype, file.value.filename);
    }
  }
}
