/**
 * The staff desk: booking without a fee, with the mobile normalised, and
 * editing and removing patients.
 */
module StaffController {
  import opened Wrappers
  import opened Text
  import opened Records
  import opened Http
  import opened Database
  import opened Registry
  import opened Scheduling

  // ---------------------------------------------------------------------
  // Booking
  // ---------------------------------------------------------------------

  /** The mobile a staff booking goes on with: its ten digits when one is given, else empty. */
  function BookingMobile(req: BookingRequest): string
    requires req.patientMobile != "" ==> NormalizeMobile(req.patientMobile).Some?
  {
    if req.patientMobile != "" then NormalizeMobile(req.patientMobile).value else ""
  }

  /** Staff `createAppointment` as a function of the tables before the request. */
  function StaffBook(t: Tables, req: BookingRequest, userId: Id, today: string,
                     formatDate: string -> string): Outcome
  {
    if MissingFields(req) then Outcome(BadRequest, t)
    else if req.patientMobile != "" && NormalizeMobile(req.patientMobile).None? then Outcome(BadRequest, t)
    else StaffAdmit(t, req, BookingMobile(req), userId, today, formatDate(req.date), SlotTime(req.time))
  }

  /**
   * The staff booking once its fields and mobile are checked: the slot
   * guard, the patient lookup by the normalised mobile, and the appointment,
   * which carries no fee.
   */
  function StaffAdmit(t: Tables, req: BookingRequest, mobile: string, userId: Id, today: string,
                      date: string, time: string): Outcome
  {
    if SlotTaken(t.appointments, req.doctorId, date, time) then Outcome(BadRequest, t)
    else
      var res := ResolvePatient(t.patients, t.nextPatientId, req.patientId, req.patientName, mobile,
                                req.patientAge, req.patientGender, today, userId);
      Outcome(Created, Enter(t.(patients := res.patients, nextPatientId := res.nextPatientId),
                             res.patientId, req.doctorId, date, time, req.reason, 0, userId))
  }

  /** Staff `createAppointment`, step by step. */
  method StaffCreateAppointment(db: Clinic, req: BookingRequest, userId: Id, today: string,
                                formatDate: string -> string)
    returns (status: Status)
    modifies db
    ensures Outcome(status, db.Snapshot()) == StaffBook(old(db.Snapshot()), req, userId, today, formatDate)
  {
    if req.date == "" || req.time == "" || req.doctorId == 0 {
      return BadRequest;
    }
    if req.patientId == 0 && (req.patientName == "" || req.patientMobile == "") {
      return BadRequest;
    }
    var mobile := req.patientMobile;
    if mobile != "" {
      var digits := NormalizeMobile(mobile);
      if digits.None? {
        return BadRequest;
      }
      mobile := digits.value;
    }
    var date := formatDate(req.date);
    var time := SlotTime(req.time);
    if SlotTaken(db.appointments, req.doctorId, date, time) {
      return BadRequest;
    }
    var patientId := FindOrAddPatient(db, req.patientId, req.patientName, mobile,
                                      req.patientAge, req.patientGender, today, userId);
    var appointmentId := EnterAppointment(db, patientId, req.doctorId, date, time, req.reason, 0, userId);
    return Created;
  }

  /**
   * A staff booking is refused, changing nothing, exactly when a field is
   * missing, a given mobile does not hold ten digits (even when a patient id
   * is given too), or the slot is held. It never touches payments or invoices.
   */
  lemma StaffBookCases(t: Tables, req: BookingRequest, userId: Id, today: string,
                       formatDate: string -> string)
    ensures var o := StaffBook(t, req, userId, today, formatDate);
      && (o.status == BadRequest || o.status == Created)
      && (o.status == BadRequest <==>
            || MissingFields(req)
            || (req.patientMobile != "" && |DigitsOnly(req.patientMobile)| != 10)
            || SlotTaken(t.appointments, req.doctorId, formatDate(req.date), SlotTime(req.time)))
      && (o.status == BadRequest ==> o.tables == t)
      && o.tables.payments == t.payments && o.tables.invoices == t.invoices
  {
  }

  /** An admitted staff booking adds one Waiting appointment with no fee, for the resolved patient. */
  lemma StaffAdmitAddsAppointment(t: Tables, req: BookingRequest, mobile: string, userId: Id,
                                  today: string, date: string, time: string)
    requires !SlotTaken(t.appointments, req.doctorId, date, time)
    ensures var o := StaffAdmit(t, req, mobile, userId, today, date, time);
      var res := ResolvePatient(t.patients, t.nextPatientId, req.patientId, req.patientName, mobile,
                                req.patientAge, req.patientGender, today, userId);
      && o.status == Created
      && o.tables.appointments == t.appointments + [Appointment(t.nextAppointmentId, res.patientId,
           req.doctorId, date, time, OrNull(req.reason), 0, Waiting, userId)]
      && |o.tables.patients| == |res.patients|
      && (forall k :: 0 <= k < |res.patients| && res.patients[k].id == res.patientId ==>
            o.tables.patients[k].totalVisits == res.patients[k].totalVisits + 1
            && o.tables.patients[k].lastVisit == Some(date))
      && (forall k :: 0 <= k < |res.patients| && res.patients[k].id != res.patientId ==>
            o.tables.patients[k] == res.patients[k])
  {
  }

  /** Staff booking never gives a held slot to a second appointment. */
  lemma StaffBookKeepsSlotsUnique(t: Tables, req: BookingRequest, userId: Id, today: string,
                                  formatDate: string -> string)
    requires SlotsUnique(t.appointments)
    ensures SlotsUnique(StaffBook(t, req, userId, today, formatDate).tables.appointments)
  {
    if !MissingFields(req) && !(req.patientMobile != "" && NormalizeMobile(req.patientMobile).None?) {
      var date := formatDate(req.date);
      var time := SlotTime(req.time);
      if !SlotTaken(t.appointments, req.doctorId, date, time) {
        var res := ResolvePatient(t.patients, t.nextPatientId, req.patientId, req.patientName,
                                  BookingMobile(req), req.patientAge, req.patientGender, today, userId);
        EnterKeepsSlotsUnique(t.(patients := res.patients, nextPatientId := res.nextPatientId),
                              res.patientId, req.doctorId, date, time, req.reason, 0, userId);
      }
    }
  }

  /** Looking a mobile up is not disturbed by a visit update, which keeps every mobile. */
  lemma LookupAfterBump(patients: seq<Patient>, id: Id, date: string, mobile: string)
    ensures PatientByMobile(BumpVisits(patients, id, date), mobile) == PatientByMobile(patients, mobile)
  {
    var after := BumpVisits(patients, id, date);
    assert forall k :: 0 <= k < |patients| ==> after[k].mobile == patients[k].mobile;
  }

  /**
   * After an admitted walk-in booking, a lookup by its mobile finds the
   * patient the new appointment is for.
   */
  lemma WalkInSettles(t: Tables, req: BookingRequest, mobile: string, userId: Id, today: string,
                      date: string, time: string)
    requires req.patientId == 0
    requires StaffAdmit(t, req, mobile, userId, today, date, time).status == Created
    ensures var o := StaffAdmit(t, req, mobile, userId, today, date, time).tables;
      && |o.appointments| == |t.appointments| + 1
      && PatientByMobile(o.patients, mobile).Some?
      && o.patients[PatientByMobile(o.patients, mobile).value].id == o.appointments[|t.appointments|].patientId
  {
    var res := ResolvePatient(t.patients, t.nextPatientId, 0, req.patientName, mobile,
                              req.patientAge, req.patientGender, today, userId);
    var o := StaffAdmit(t, req, mobile, userId, today, date, time).tables;
    assert o.patients == BumpVisits(res.patients, res.patientId, date);
    LookupAfterBump(res.patients, res.patientId, date, mobile);
    var found := PatientByMobile(res.patients, mobile);
    match PatientByMobile(t.patients, mobile)
    case Some(k) =>
      assert found == Some(k);
    case None =>
      var n := |t.patients|;
      assert res.patients[n].mobile == mobile;
      assert found == Some(n);
  }

  /** A walk-in booking whose mobile is on file books that patient and adds none. */
  lemma WalkInFound(t: Tables, req: BookingRequest, mobile: string, userId: Id, today: string,
                    date: string, time: string)
    requires req.patientId == 0
    requires StaffAdmit(t, req, mobile, userId, today, date, time).status == Created
    requires PatientByMobile(t.patients, mobile).Some?
    ensures var o := StaffAdmit(t, req, mobile, userId, today, date, time).tables;
      && |o.patients| == |t.patients|
      && o.appointments[|t.appointments|].patientId == t.patients[PatientByMobile(t.patients, mobile).value].id
  {
  }

  /**
   * A staff booking for a new walk-in (no patient id) followed by another
   * for the same mobile: the second finds the patient the first settled on,
   * and adds no patient.
   */
  lemma StaffRebookReusesPatient(t: Tables, first: BookingRequest, second: BookingRequest, mobile: string,
                                 userId: Id, today: string, date1: string, time1: string,
                                 date2: string, time2: string)
    requires first.patientId == 0 && second.patientId == 0
    requires StaffAdmit(t, first, mobile, userId, today, date1, time1).status == Created
    requires StaffAdmit(StaffAdmit(t, first, mobile, userId, today, date1, time1).tables, second, mobile,
                        userId, today, date2, time2).status == Created
    ensures var t1 := StaffAdmit(t, first, mobile, userId, today, date1, time1).tables;
      var t2 := StaffAdmit(t1, second, mobile, userId, today, date2, time2).tables;
      && |t2.patients| == |t1.patients|
      && t2.appointments[|t1.appointments|].patientId == t1.appointments[|t.appointments|].patientId
  {
    var t1 := StaffAdmit(t, first, mobile, userId, today, date1, time1).tables;
    WalkInSettles(t, first, mobile, userId, today, date1, time1);
    WalkInFound(t1, second, mobile, userId, today, date2, time2);
  }

  // ---------------------------------------------------------------------
  // Patient records
  // ---------------------------------------------------------------------

  /** `SELECT id FROM patients WHERE mobile = ? AND id != ?` finds a row. */
  predicate MobileHeldByOther(patients: seq<Patient>, mobile: string, id: Id) {
    exists k :: 0 <= k < |patients| && patients[k].mobile == mobile && patients[k].id != id
  }

  /** `UPDATE patients SET name = ?, mobile = ?, age = ?, gender = ?, address = ? WHERE id = ?`. */
  function Rewrite(patients: seq<Patient>, id: Id, name: string, mobile: string, age: string,
                   gender: string, address: string): (r: seq<Patient>)
    ensures |r| == |patients|
    ensures forall k :: 0 <= k < |r| && patients[k].id == id ==>
      r[k] == patients[k].(name := name, mobile := mobile, age := OrNull(age),
                           gender := OrDefault(gender, "Male"), address := OrNull(address))
    ensures forall k :: 0 <= k < |r| && patients[k].id != id ==> r[k] == patients[k]
  {
    UpdateWhere(patients, (p: Patient) => p.id == id,
      (p: Patient) => p.(name := name, mobile := mobile, age := OrNull(age),
                         gender := OrDefault(gender, "Male"), address := OrNull(address)))
  }

  /** `updatePatient` as a function of the tables before the request. */
  function EditPatient(t: Tables, id: Id, name: string, mobile: string, age: string, gender: string,
                       address: string): Outcome
  {
    if name == "" || mobile == "" then Outcome(BadRequest, t)
    else
      match NormalizeMobile(mobile)
      case None => Outcome(BadRequest, t)
      case Some(digits) =>
        if MobileHeldByOther(t.patients, digits, id) then Outcome(BadRequest, t)
        else if PatientById(t.patients, id).None? then Outcome(NotFound, t)
        else Outcome(Ok, t.(patients := Rewrite(t.patients, id, name, digits, age, gender, address)))
  }

  /** `updatePatient`, step by step. */
  method UpdatePatient(db: Clinic, id: Id, name: string, mobile: string, age: string, gender: string,
                       address: string)
    returns (status: Status)
    modifies db`patients
    ensures Outcome(status, db.Snapshot()) == EditPatient(old(db.Snapshot()), id, name, mobile, age, gender, address)
  {
    if name == "" || mobile == "" {
      return BadRequest;
    }
    var digits := NormalizeMobile(mobile);
    if digits.None? {
      return BadRequest;
    }
    if MobileHeldByOther(db.patients, digits.value, id) {
      return BadRequest;
    }
    var matched := PatientById(db.patients, id);
    if matched.None? {
      return NotFound;
    }
    db.patients := Rewrite(db.patients, id, name, digits.value, age, gender, address);
    return Ok;
  }

  /**
   * An edit is refused with 400 when a field is missing, the mobile does not
   * hold ten digits, or another patient holds them; the conflict is reported
   * even for an id no patient has. An id no patient has then gives 404.
   * Otherwise the rows with the id take the new details, with the normalised
   * mobile, and nothing else changes.
   */
  lemma EditPatientCases(t: Tables, id: Id, name: string, mobile: string, age: string, gender: string,
                         address: string)
    ensures var o := EditPatient(t, id, name, mobile, age, gender, address);
      && (o.status == BadRequest <==>
            || name == "" || mobile == "" || NormalizeMobile(mobile).None?
            || MobileHeldByOther(t.patients, NormalizeMobile(mobile).value, id))
      && (o.status == NotFound <==>
            o.status != BadRequest && forall k :: 0 <= k < |t.patients| ==> t.patients[k].id != id)
      && (o.status != Ok ==> o.tables == t)
      && (o.status == Ok ==>
            o.tables == t.(patients := Rewrite(t.patients, id, name, NormalizeMobile(mobile).value,
                                               age, gender, address)))
  {
  }

  /** Every patient id occurs once. */
  predicate PatientIdsUnique(patients: seq<Patient>) {
    forall i, j :: 0 <= i < j < |patients| ==> patients[i].id != patients[j].id
  }

  /** With ids unique, an edit never gives two patients the same mobile. */
  lemma EditKeepsMobilesUnique(t: Tables, id: Id, name: string, mobile: string, age: string, gender: string,
                               address: string)
    requires MobilesUnique(t.patients) && PatientIdsUnique(t.patients)
    ensures var o := EditPatient(t, id, name, mobile, age, gender, address);
      MobilesUnique(o.tables.patients) && PatientIdsUnique(o.tables.patients)
  {
    var o := EditPatient(t, id, name, mobile, age, gender, address);
    if o.status == Ok {
      var digits := NormalizeMobile(mobile).value;
      var s := o.tables.patients;
      assert s == Rewrite(t.patients, id, name, digits, age, gender, address);
      assert !MobileHeldByOther(t.patients, digits, id);
      forall i, j | 0 <= i < j < |s|
        ensures s[i].mobile != s[j].mobile
      {
        if t.patients[i].id == id {
          assert t.patients[j].id != id;
        } else if t.patients[j].id == id {
          assert s[i] == t.patients[i];
        }
      }
    }
  }

  /** Some appointment still references the patient. */
  predicate HasAppointments(appointments: seq<Appointment>, patientId: Id) {
    exists k :: 0 <= k < |appointments| && appointments[k].patientId == patientId
  }

  /** `deletePatient` as a function of the tables before the request. */
  function RemovePatient(t: Tables, id: Id): Outcome {
    if HasAppointments(t.appointments, id) then Outcome(BadRequest, t)
    else if PatientById(t.patients, id).None? then Outcome(NotFound, t)
    else Outcome(Ok, t.(patients := DeleteWhere(t.patients, (p: Patient) => p.id == id)))
  }

  /** `deletePatient`, step by step. */
  method DeletePatient(db: Clinic, id: Id) returns (status: Status)
    modifies db`patients
    ensures Outcome(status, db.Snapshot()) == RemovePatient(old(db.Snapshot()), id)
  {
    if HasAppointments(db.appointments, id) {
      return BadRequest;
    }
    var matched := PatientById(db.patients, id);
    if matched.None? {
      return NotFound;
    }
    db.patients := DeleteWhere(db.patients, (p: Patient) => p.id == id);
    return Ok;
  }

  /** Every appointment's patient is on file. */
  predicate PatientsReferenced(t: Tables) {
    forall k :: 0 <= k < |t.appointments| ==>
      exists j :: 0 <= j < |t.patients| && t.patients[j].id == t.appointments[k].patientId
  }

  /**
   * Removal is refused while any appointment references the patient, with
   * 400, and an unknown id gives 404; either way nothing changes. A removal
   * drops every row with the id and keeps every other row, so no appointment
   * is left without its patient.
   */
  lemma RemovePatientCases(t: Tables, id: Id)
    ensures var o := RemovePatient(t, id);
      && (o.status == BadRequest <==> HasAppointments(t.appointments, id))
      && (o.status == NotFound <==>
            !HasAppointments(t.appointments, id) && forall k :: 0 <= k < |t.patients| ==> t.patients[k].id != id)
      && (o.status != Ok ==> o.tables == t)
      && (o.status == Ok ==>
            && o.tables == t.(patients := o.tables.patients)
            && (forall p :: p in o.tables.patients ==> p in t.patients && p.id != id)
            && (forall k :: 0 <= k < |t.patients| && t.patients[k].id != id ==> t.patients[k] in o.tables.patients))
  {
  }

  /** Removing a patient never leaves an appointment pointing at no patient. */
  lemma RemoveKeepsReferences(t: Tables, id: Id)
    requires PatientsReferenced(t)
    ensures PatientsReferenced(RemovePatient(t, id).tables)
  {
    var o := RemovePatient(t, id);
    if o.status == Ok {
      RemovePatientCases(t, id);
      var after := o.tables;
      assert after.appointments == t.appointments;
      forall k | 0 <= k < |after.appointments|
        ensures exists j :: 0 <= j < |after.patients| && after.patients[j].id == after.appointments[k].patientId
      {
        var j :| 0 <= j < |t.patients| && t.patients[j].id == t.appointments[k].patientId;
        assert !HasAppointments(t.appointments, id);
        assert t.appointments[k].patientId != id;
        var p := t.patients[j];
        assert p in after.patients;
        var i :| 0 <= i < |after.patients| && after.patients[i] == p;
        assert after.patients[i].id == after.appointments[k].patientId;
      }
    }
  }
}
