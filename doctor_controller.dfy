/**
 * src/controllers/doctor.controller.js: saving a consultation (role
 * scoping, the upsert keyed by appointment, completion, the fee payment),
 * the consultation screen's data and history, consultation templates, the
 * stored-file path and content-type decisions, and print preferences.
 */
module DoctorController {
  import opened Wrappers
  import opened Text
  import opened Records
  import opened Http
  import opened Database
  import opened Registry
  import opened Scheduling
  import opened Ledger
  import opened History
  import opened UploadMiddleware
  import Settings

  /** The authenticated user a handler runs for. */
  datatype Caller = Caller(userId: Id, role: string)

  /** `getDoctorId`: the id of the first doctor row linked to the user (a NULL link matches nobody). */
  function DoctorIdOf(doctors: seq<Doctor>, userId: Id): (r: Option<Id>)
    ensures r.None? <==> forall k :: 0 <= k < |doctors| ==> !(userId != 0 && doctors[k].userId == userId)
    ensures r.Some? ==> exists k :: 0 <= k < |doctors| && doctors[k].userId == userId && doctors[k].id == r.value
  {
    match FirstWhere(doctors, (d: Doctor) => userId != 0 && d.userId == userId)
    case None => None
    case Some(k) => Some(doctors[k].id)
  }

  // ---------------------------------------------------------------------
  // Who may open which appointment
  // ---------------------------------------------------------------------

  /** Which appointments a caller reaches. */
  datatype Scope = AnyDoctor | OwnDoctor(id: Id) | NoProfile

  /**
   * ADMIN and STAFF reach every appointment; anyone else reaches those of
   * their own doctor profile, and nothing without one.
   */
  function ScopeOf(doctors: seq<Doctor>, caller: Caller): (s: Scope)
    ensures s == AnyDoctor <==> caller.role == "ADMIN" || caller.role == "STAFF"
    ensures s.OwnDoctor? ==> s.id != 0 && DoctorIdOf(doctors, caller.userId) == Some(s.id)
    ensures s == NoProfile <==>
      && caller.role != "ADMIN" && caller.role != "STAFF"
      && (DoctorIdOf(doctors, caller.userId).None? || DoctorIdOf(doctors, caller.userId) == Some(0))
  {
    if caller.role == "ADMIN" || caller.role == "STAFF" then AnyDoctor
    else
      match DoctorIdOf(doctors, caller.userId)
      case None => NoProfile
      case Some(id) => if id == 0 then NoProfile else OwnDoctor(id)
  }

  /** `WHERE id = ?`, and `AND doctor_id = ?` for a caller limited to their own profile. */
  predicate InScope(a: Appointment, appointmentId: Id, scope: Scope) {
    a.id == appointmentId && (scope.OwnDoctor? ==> a.doctorId == scope.id)
  }

  function ScopedAppointment(appointments: seq<Appointment>, appointmentId: Id, scope: Scope): Option<nat> {
    FirstWhere(appointments, (a: Appointment) => InScope(a, appointmentId, scope))
  }

  // ---------------------------------------------------------------------
  // Row lookups and updates of a consultation save
  // ---------------------------------------------------------------------

  /** `SELECT ... FROM consultations WHERE appointment_id = ?`: the first such consultation. */
  function ConsultationOf(consultations: seq<Consultation>, appointmentId: Id): Option<nat> {
    FirstWhere(consultations, (c: Consultation) => c.appointmentId == appointmentId)
  }

  /** `SELECT COUNT(*) FROM consultations WHERE patient_id = ?`, across all doctors. */
  function VisitsOf(consultations: seq<Consultation>, patientId: Id): nat {
    CountWhere(consultations, (c: Consultation) => c.patientId == patientId)
  }

  /** `UPDATE consultations SET <the seven clinical fields> WHERE id = ?`. */
  function RewriteNotes(consultations: seq<Consultation>, id: Id, notes: ClinicalNotes): (r: seq<Consultation>)
    ensures |r| == |consultations|
    ensures forall k :: 0 <= k < |r| && consultations[k].id == id ==> r[k] == consultations[k].(notes := notes)
    ensures forall k :: 0 <= k < |r| && consultations[k].id != id ==> r[k] == consultations[k]
  {
    UpdateWhere(consultations, (c: Consultation) => c.id == id, (c: Consultation) => c.(notes := notes))
  }

  /** `UPDATE patients SET last_visit = CURRENT_DATE WHERE id = ?`. */
  function SetLastVisit(patients: seq<Patient>, id: Id, today: string): (r: seq<Patient>)
    ensures |r| == |patients|
    ensures forall k :: 0 <= k < |r| && patients[k].id == id ==> r[k] == patients[k].(lastVisit := Some(today))
    ensures forall k :: 0 <= k < |r| && patients[k].id != id ==> r[k] == patients[k]
  {
    UpdateWhere(patients, (p: Patient) => p.id == id, (p: Patient) => p.(lastVisit := Some(today)))
  }

  // ---------------------------------------------------------------------
  // saveConsultation
  // ---------------------------------------------------------------------

  /**
   * The upsert keyed by appointment: the consultation already recorded for
   * it has its clinical fields rewritten; otherwise one is inserted,
   * numbered one past the patient's consultations so far.
   */
  function Upsert(t: Tables, appointmentId: Id, patientId: Id, doctorId: Id, notes: ClinicalNotes): Tables {
    match ConsultationOf(t.consultations, appointmentId)
    case Some(k) =>
      t.(consultations := RewriteNotes(t.consultations, t.consultations[k].id, notes))
    case None =>
      t.(consultations := t.consultations + [Consultation(t.nextConsultationId, appointmentId, patientId, doctorId,
                                                          VisitsOf(t.consultations, patientId) + 1, notes)],
         nextConsultationId := t.nextConsultationId + 1)
  }

  /**
   * After the upsert: the appointment's fee row is read, the appointment is
   * marked Completed, a cash payment for the fee is inserted when the fee is
   * positive and no payment references the appointment, and the patient's
   * last visit becomes today.
   */
  function Finish(t: Tables, appointmentId: Id, patientId: Id, doctorId: Id, userId: Id, today: string): Tables {
    var feeRow := FeeRow(t.appointments, appointmentId);
    var completed := t.(appointments := SetStatus(t.appointments, appointmentId, Completed));
    var billed := Bill(completed, feeRow, appointmentId, patientId, doctorId, userId);
    billed.(patients := SetLastVisit(billed.patients, patientId, today))
  }

  /** `SELECT fee, appointment_date FROM appointments WHERE id = ?`: the first row with the id. */
  function FeeRow(appointments: seq<Appointment>, appointmentId: Id): Option<Appointment> {
    match AppointmentById(appointments, appointmentId)
    case None => None
    case Some(k) => Some(appointments[k])
  }

  /** The cash payment for a positive fee, unless the appointment is already paid. */
  function Bill(t: Tables, feeRow: Option<Appointment>, appointmentId: Id, patientId: Id, doctorId: Id, userId: Id): Tables {
    if feeRow.Some? && feeRow.value.fee > 0 && !Paid(t.payments, appointmentId) then
      WithPayment(t, appointmentId, patientId, doctorId, feeRow.value.fee, feeRow.value.date, "Cash", None, userId)
    else t
  }

  /** `saveConsultation` as a function of the tables before the request. */
  function Save(t: Tables, caller: Caller, appointmentId: Id, notes: ClinicalNotes, today: string): Outcome {
    var scope := ScopeOf(t.doctors, caller);
    if scope == NoProfile then Outcome(NotFound, t)
    else
      match ScopedAppointment(t.appointments, appointmentId, scope)
      case None => Outcome(NotFound, t)
      case Some(k) =>
        var apt := t.appointments[k];
        var doctorId := if scope.OwnDoctor? then scope.id else apt.doctorId;
        Outcome(Ok, Finish(Upsert(t, appointmentId, apt.patientId, doctorId, notes),
                           appointmentId, apt.patientId, doctorId, caller.userId, today))
  }

  /** The consultation update or insert. */
  method WriteConsultation(db: Clinic, appointmentId: Id, patientId: Id, doctorId: Id, notes: ClinicalNotes)
    modifies db`consultations, db`nextConsultationId
    ensures db.Snapshot() == Upsert(old(db.Snapshot()), appointmentId, patientId, doctorId, notes)
  {
    var visitNumber := VisitsOf(db.consultations, patientId) + 1;
    var existing := ConsultationOf(db.consultations, appointmentId);
    if existing.Some? {
      db.consultations := RewriteNotes(db.consultations, db.consultations[existing.value].id, notes);
    } else {
      db.consultations := db.consultations + [Consultation(db.nextConsultationId, appointmentId, patientId,
                                                           doctorId, visitNumber, notes)];
      db.nextConsultationId := db.nextConsultationId + 1;
    }
  }

  /** Completion, the fee payment and the last-visit update. */
  method FinishConsultation(db: Clinic, appointmentId: Id, patientId: Id, doctorId: Id, userId: Id, today: string)
    modifies db`appointments, db`payments, db`nextPaymentId, db`patients
    ensures db.Snapshot() == Finish(old(db.Snapshot()), appointmentId, patientId, doctorId, userId, today)
  {
    var feeRow := FeeRow(db.appointments, appointmentId);
    db.appointments := SetStatus(db.appointments, appointmentId, Completed);
    BillFee(db, feeRow, appointmentId, patientId, doctorId, userId);
    db.patients := SetLastVisit(db.patients, patientId, today);
  }

  /** The payment insert guarded by the fee and by the existing-payment query. */
  method BillFee(db: Clinic, feeRow: Option<Appointment>, appointmentId: Id, patientId: Id, doctorId: Id, userId: Id)
    modifies db`payments, db`nextPaymentId
    ensures db.Snapshot() == Bill(old(db.Snapshot()), feeRow, appointmentId, patientId, doctorId, userId)
  {
    if feeRow.Some? && feeRow.value.fee > 0 {
      var existing := PaymentFor(db.payments, appointmentId);
      if existing.None? {
        db.payments := db.payments + [Payment(db.nextPaymentId, appointmentId, patientId, doctorId,
                                              feeRow.value.fee, feeRow.value.date, "Cash", "Completed", None, userId)];
        db.nextPaymentId := db.nextPaymentId + 1;
      }
    }
  }

  /** `saveConsultation`: the handler, step by step. */
  method SaveConsultation(db: Clinic, caller: Caller, appointmentId: Id, notes: ClinicalNotes, today: string)
    returns (status: Status)
    modifies db
    ensures Outcome(status, db.Snapshot()) == Save(old(db.Snapshot()), caller, appointmentId, notes, today)
  {
    var doctorId: Id := 0;
    if caller.role != "ADMIN" && caller.role != "STAFF" {
      var profile := DoctorIdOf(db.doctors, caller.userId);
      if profile.None? || profile.value == 0 {
        return NotFound;
      }
      doctorId := profile.value;
    }
    var scope := if doctorId != 0 then OwnDoctor(doctorId) else AnyDoctor;
    var found := ScopedAppointment(db.appointments, appointmentId, scope);
    if found.None? {
      return NotFound;
    }
    var patientId := db.appointments[found.value].patientId;
    var finalDoctorId := if doctorId != 0 then doctorId else db.appointments[found.value].doctorId;
    WriteConsultation(db, appointmentId, patientId, finalDoctorId, notes);
    FinishConsultation(db, appointmentId, patientId, finalDoctorId, caller.userId, today);
    return Ok;
  }

  // ---------------------------------------------------------------------
  // Properties of a consultation save
  // ---------------------------------------------------------------------

  /**
   * A save answers 404, changing nothing, exactly when the caller has no
   * reach (a non-ADMIN, non-STAFF caller without a doctor profile) or no
   * reachable appointment has the id; otherwise 200. ADMIN and STAFF reach
   * every appointment; anyone else only their own doctor profile's.
   */
  lemma SaveAccess(t: Tables, caller: Caller, appointmentId: Id, notes: ClinicalNotes, today: string)
    ensures var o := Save(t, caller, appointmentId, notes, today);
      var scope := ScopeOf(t.doctors, caller);
      && (o.status == Ok || o.status == NotFound)
      && (o.status == NotFound <==>
            scope == NoProfile || forall k :: 0 <= k < |t.appointments| ==> !InScope(t.appointments[k], appointmentId, scope))
      && (o.status == NotFound ==> o.tables == t)
      && ((caller.role == "ADMIN" || caller.role == "STAFF") ==>
            (o.status == Ok <==> exists k :: 0 <= k < |t.appointments| && t.appointments[k].id == appointmentId))
      && (caller.role != "ADMIN" && caller.role != "STAFF" && o.status == Ok ==>
            exists k :: 0 <= k < |t.appointments| && t.appointments[k].id == appointmentId
                        && DoctorIdOf(t.doctors, caller.userId) == Some(t.appointments[k].doctorId))
  {
    var scope := ScopeOf(t.doctors, caller);
    if scope != NoProfile {
      var found := ScopedAppointment(t.appointments, appointmentId, scope);
      if found.Some? {
        assert InScope(t.appointments[found.value], appointmentId, scope);
      }
    }
  }

  /** At most one consultation per appointment. */
  predicate OnePerAppointment(consultations: seq<Consultation>) {
    forall i, j :: 0 <= i < j < |consultations| ==> consultations[i].appointmentId != consultations[j].appointmentId
  }

  /** The upsert never adds a second consultation for an appointment. */
  lemma UpsertKeepsOnePerAppointment(t: Tables, appointmentId: Id, patientId: Id, doctorId: Id, notes: ClinicalNotes)
    requires OnePerAppointment(t.consultations)
    ensures OnePerAppointment(Upsert(t, appointmentId, patientId, doctorId, notes).consultations)
  {
    var r := Upsert(t, appointmentId, patientId, doctorId, notes).consultations;
    if ConsultationOf(t.consultations, appointmentId).Some? {
      assert forall i :: 0 <= i < |r| ==> r[i].appointmentId == t.consultations[i].appointmentId;
    } else {
      assert forall i :: 0 <= i < |t.consultations| ==> r[i] == t.consultations[i];
    }
  }

  /** Saving keeps at most one consultation per appointment. */
  lemma SaveKeepsOnePerAppointment(t: Tables, caller: Caller, appointmentId: Id, notes: ClinicalNotes, today: string)
    requires OnePerAppointment(t.consultations)
    ensures OnePerAppointment(Save(t, caller, appointmentId, notes, today).tables.consultations)
  {
    var scope := ScopeOf(t.doctors, caller);
    if scope != NoProfile {
      var found := ScopedAppointment(t.appointments, appointmentId, scope);
      if found.Some? {
        var apt := t.appointments[found.value];
        var doctorId := if scope.OwnDoctor? then scope.id else apt.doctorId;
        UpsertKeepsOnePerAppointment(t, appointmentId, apt.patientId, doctorId, notes);
      }
    }
  }

  /**
   * Upserting for an appointment that has a consultation rewrites that
   * consultation's clinical fields and keeps every visit number and
   * appointment reference; no row is added.
   */
  lemma UpsertRewrites(t: Tables, appointmentId: Id, patientId: Id, doctorId: Id, notes: ClinicalNotes, j: nat)
    requires ConsultationOf(t.consultations, appointmentId) == Some(j)
    ensures var cs := t.consultations;
      var after := Upsert(t, appointmentId, patientId, doctorId, notes).consultations;
      && |after| == |cs|
      && after[j] == cs[j].(notes := notes)
      && (forall i :: 0 <= i < |cs| ==> after[i].visitNumber == cs[i].visitNumber && after[i].appointmentId == cs[i].appointmentId)
      && (forall i :: 0 <= i < |cs| && cs[i].id != cs[j].id ==> after[i] == cs[i])
  {
  }

  /**
   * Upserting for an appointment with no consultation appends exactly one,
   * numbered one past the patient's consultations with any doctor, so 1
   * exactly when the patient had none.
   */
  lemma UpsertInserts(t: Tables, appointmentId: Id, patientId: Id, doctorId: Id, notes: ClinicalNotes)
    requires ConsultationOf(t.consultations, appointmentId).None?
    ensures var cs := t.consultations;
      var visit := VisitsOf(cs, patientId) + 1;
      && Upsert(t, appointmentId, patientId, doctorId, notes).consultations
           == cs + [Consultation(t.nextConsultationId, appointmentId, patientId, doctorId, visit, notes)]
      && (visit == 1 <==> forall i :: 0 <= i < |cs| ==> cs[i].patientId != patientId)
  {
  }

  /**
   * A successful save writes the consultations as the upsert for the
   * appointment's patient, by the caller's own doctor profile (the
   * appointment's doctor for ADMIN and STAFF).
   */
  lemma SaveUpsert(t: Tables, caller: Caller, appointmentId: Id, notes: ClinicalNotes, today: string, k: nat)
    requires ScopeOf(t.doctors, caller) != NoProfile
    requires ScopedAppointment(t.appointments, appointmentId, ScopeOf(t.doctors, caller)) == Some(k)
    ensures var o := Save(t, caller, appointmentId, notes, today);
      var scope := ScopeOf(t.doctors, caller);
      var apt := t.appointments[k];
      && o.status == Ok
      && o.tables.consultations
           == Upsert(t, appointmentId, apt.patientId, if scope.OwnDoctor? then scope.id else apt.doctorId, notes).consultations
  {
  }

  /**
   * After a successful save every appointment row with the id is
   * Completed, whatever its state before (a Cancelled one included), the
   * other rows are untouched, and the patient's last visit is today.
   */
  lemma SaveCompletes(t: Tables, caller: Caller, appointmentId: Id, notes: ClinicalNotes, today: string, k: nat)
    requires ScopeOf(t.doctors, caller) != NoProfile
    requires ScopedAppointment(t.appointments, appointmentId, ScopeOf(t.doctors, caller)) == Some(k)
    ensures var o := Save(t, caller, appointmentId, notes, today);
      var patientId := t.appointments[k].patientId;
      && |o.tables.appointments| == |t.appointments|
      && (forall i :: 0 <= i < |t.appointments| && t.appointments[i].id == appointmentId ==>
            o.tables.appointments[i] == t.appointments[i].(status := Completed))
      && (forall i :: 0 <= i < |t.appointments| && t.appointments[i].id != appointmentId ==>
            o.tables.appointments[i] == t.appointments[i])
      && |o.tables.patients| == |t.patients|
      && (forall i :: 0 <= i < |t.patients| && t.patients[i].id == patientId ==>
            o.tables.patients[i] == t.patients[i].(lastVisit := Some(today)))
      && (forall i :: 0 <= i < |t.patients| && t.patients[i].id != patientId ==>
            o.tables.patients[i] == t.patients[i])
  {
    var scope := ScopeOf(t.doctors, caller);
    var apt := t.appointments[k];
    var doctorId := if scope.OwnDoctor? then scope.id else apt.doctorId;
    var u := Upsert(t, appointmentId, apt.patientId, doctorId, notes);
    assert u.appointments == t.appointments && u.patients == t.patients;
    FinishRows(u, appointmentId, apt.patientId, doctorId, caller.userId, today);
  }

  /** Finishing rewrites the appointment's status and the patient's last visit and no other row of those tables. */
  lemma FinishRows(t: Tables, appointmentId: Id, patientId: Id, doctorId: Id, userId: Id, today: string)
    ensures var f := Finish(t, appointmentId, patientId, doctorId, userId, today);
      && f.appointments == SetStatus(t.appointments, appointmentId, Completed)
      && f.patients == SetLastVisit(t.patients, patientId, today)
  {
  }

  /**
   * A successful save inserts one cash payment of the fee, dated the
   * appointment's date, exactly when the appointment's fee is positive and
   * no payment references it yet; it never creates an invoice.
   */
  lemma SavePayment(t: Tables, caller: Caller, appointmentId: Id, notes: ClinicalNotes, today: string, k: nat)
    requires ScopeOf(t.doctors, caller) != NoProfile
    requires ScopedAppointment(t.appointments, appointmentId, ScopeOf(t.doctors, caller)) == Some(k)
    ensures AppointmentById(t.appointments, appointmentId).Some?
    ensures var o := Save(t, caller, appointmentId, notes, today);
      var scope := ScopeOf(t.doctors, caller);
      var apt := t.appointments[k];
      var feeRow := t.appointments[AppointmentById(t.appointments, appointmentId).value];
      && o.tables.invoices == t.invoices
      && (feeRow.fee > 0 && !Paid(t.payments, appointmentId) ==>
            o.tables.payments == t.payments + [Payment(t.nextPaymentId, appointmentId, apt.patientId,
                                                       if scope.OwnDoctor? then scope.id else apt.doctorId,
                                                       feeRow.fee, feeRow.date, "Cash", "Completed", None, caller.userId)])
      && (!(feeRow.fee > 0 && !Paid(t.payments, appointmentId)) ==> o.tables.payments == t.payments)
  {
    assert t.appointments[k].id == appointmentId;
  }

  /** A save adds at most one payment, and after it a positive fee is paid. */
  lemma SavePaysOnce(t: Tables, caller: Caller, appointmentId: Id, notes: ClinicalNotes, today: string)
    ensures var o := Save(t, caller, appointmentId, notes, today);
      && o.tables.invoices == t.invoices
      && (o.tables.payments == t.payments || (!Paid(t.payments, appointmentId) && |o.tables.payments| == |t.payments| + 1))
      && (Paid(t.payments, appointmentId) ==> o.tables.payments == t.payments)
      && (o.tables.payments != t.payments ==> Paid(o.tables.payments, appointmentId))
  {
    var scope := ScopeOf(t.doctors, caller);
    if scope != NoProfile {
      var found := ScopedAppointment(t.appointments, appointmentId, scope);
      if found.Some? {
        SavePayment(t, caller, appointmentId, notes, today, found.value);
        var p := Save(t, caller, appointmentId, notes, today).tables.payments;
        if p != t.payments {
          assert p[|p| - 1].appointmentId == appointmentId;
          assert PaymentFor(p, appointmentId).Some?;
        }
      }
    }
  }

  /** Saving the same appointment twice adds at most one payment in all, and no invoice. */
  lemma SaveTwiceAddsAtMostOnePayment(t: Tables, caller: Caller, appointmentId: Id,
                                      notes1: ClinicalNotes, notes2: ClinicalNotes, today1: string, today2: string)
    ensures var once := Save(t, caller, appointmentId, notes1, today1).tables;
      var twice := Save(once, caller, appointmentId, notes2, today2).tables;
      && |twice.payments| <= |t.payments| + 1
      && twice.invoices == t.invoices
  {
    var once := Save(t, caller, appointmentId, notes1, today1).tables;
    SavePaysOnce(t, caller, appointmentId, notes1, today1);
    SavePaysOnce(once, caller, appointmentId, notes2, today2);
  }

  /** Saving keeps every id below its table's counter. */
  lemma SaveKeepsValid(t: Tables, caller: Caller, appointmentId: Id, notes: ClinicalNotes, today: string)
    requires Valid(t)
    ensures Valid(Save(t, caller, appointmentId, notes, today).tables)
  {
    var scope := ScopeOf(t.doctors, caller);
    if scope != NoProfile {
      var found := ScopedAppointment(t.appointments, appointmentId, scope);
      if found.Some? {
        var apt := t.appointments[found.value];
        var doctorId := if scope.OwnDoctor? then scope.id else apt.doctorId;
        UpsertKeepsValid(t, appointmentId, apt.patientId, doctorId, notes);
        FinishKeepsValid(Upsert(t, appointmentId, apt.patientId, doctorId, notes),
                         appointmentId, apt.patientId, doctorId, caller.userId, today);
      }
    }
  }

  /** The upsert rewrites in place or appends under the next consultation id. */
  lemma UpsertKeepsValid(t: Tables, appointmentId: Id, patientId: Id, doctorId: Id, notes: ClinicalNotes)
    requires Valid(t)
    ensures Valid(Upsert(t, appointmentId, patientId, doctorId, notes))
  {
    var found := ConsultationOf(t.consultations, appointmentId);
    if found.Some? {
      var r := RewriteNotes(t.consultations, t.consultations[found.value].id, notes);
      assert forall k :: 0 <= k < |r| ==> r[k].id == t.consultations[k].id;
      assert ConsultationIdsBelow(r, t.nextConsultationId);
    }
  }

  lemma FinishKeepsValid(t: Tables, appointmentId: Id, patientId: Id, doctorId: Id, userId: Id, today: string)
    requires Valid(t)
    ensures Valid(Finish(t, appointmentId, patientId, doctorId, userId, today))
  {
    var feeRow := FeeRow(t.appointments, appointmentId);
    SetStatusKeepsIds(t.appointments, appointmentId, Completed, t.nextAppointmentId);
    var completed := t.(appointments := SetStatus(t.appointments, appointmentId, Completed));
    var billed := Bill(completed, feeRow, appointmentId, patientId, doctorId, userId);
    if billed != completed {
      LedgerKeepsValid(completed, appointmentId, patientId, doctorId, feeRow.value.fee, feeRow.value.date, "Cash", None, userId);
    }
    SetLastVisitKeepsIds(billed.patients, patientId, today, billed.nextPatientId);
  }

  /** Recording a visit keeps every patient id, so keeps them below the counter. */
  lemma SetLastVisitKeepsIds(patients: seq<Patient>, id: Id, today: string, next: Id)
    requires PatientIdsBelow(patients, next)
    ensures PatientIdsBelow(SetLastVisit(patients, id, today), next)
  {
    var r := SetLastVisit(patients, id, today);
    assert forall k :: 0 <= k < |r| ==> r[k].id == patients[k].id;
  }

  // ---------------------------------------------------------------------
  // getConsultationData
  // ---------------------------------------------------------------------

  /**
   * A consultation's history row: joined with its appointment and its
   * doctor (the first rows with those ids), and no row when either is
   * missing.
   */
  function HistoryRow(t: Tables, c: Consultation): (r: Option<HistoryEntry>)
    ensures r.Some? <==>
      && (exists i :: 0 <= i < |t.appointments| && t.appointments[i].id == c.appointmentId)
      && (exists i :: 0 <= i < |t.doctors| && t.doctors[i].id == c.doctorId)
    ensures r.Some? ==>
      && r.value.id == c.id
      && r.value.visit == VisitLabel(c.visitNumber)
      && r.value.chiefComplaints == c.notes.chiefComplaints
      && r.value.diagnosis == c.notes.diagnosis
      && r.value.treatmentPlan == c.notes.treatmentPlan
  {
    match (AppointmentById(t.appointments, c.appointmentId), DoctorById(t.doctors, c.doctorId))
    case (Some(i), Some(j)) =>
      Some(HistoryEntry(c.id, t.appointments[i].date, t.appointments[i].time, VisitLabel(c.visitNumber),
                        t.doctors[j].name, c.notes.chiefComplaints, c.notes.diagnosis, c.notes.treatmentPlan))
    case _ => None
  }

  /**
   * `WHERE c.patient_id = ? AND c.id != ?` over the joined rows: exactly the
   * patient's joinable consultations other than the one with `currentId`.
   */
  function Candidates(t: Tables, cs: seq<Consultation>, patientId: Id, currentId: Id): (r: seq<HistoryEntry>)
    ensures forall e :: e in r ==>
      e.id != currentId && exists c :: c in cs && c.patientId == patientId && HistoryRow(t, c) == Some(e)
    ensures forall c :: c in cs && c.patientId == patientId && c.id != currentId && HistoryRow(t, c).Some? ==>
      HistoryRow(t, c).value in r
  {
    if cs == [] then []
    else
      var c := cs[0];
      var rest := Candidates(t, cs[1..], patientId, currentId);
      assert forall x :: x in cs[1..] ==> x in cs;
      if c.patientId == patientId && c.id != currentId && HistoryRow(t, c).Some? then [HistoryRow(t, c).value] + rest
      else rest
  }

  /**
   * The listed history. The current consultation's id comes from a
   * subquery; with no consultation for the appointment yet the subquery
   * is NULL, `c.id != NULL` holds for no row, and the history is empty.
   */
  function HistoryOf(t: Tables, patientId: Id, appointmentId: Id): seq<HistoryEntry> {
    match ConsultationOf(t.consultations, appointmentId)
    case None => []
    case Some(k) => TopEntries(Candidates(t, t.consultations, patientId, t.consultations[k].id))
  }

  /**
   * The history is ordered newest first and holds at most ten entries; it
   * is empty while the appointment has no consultation; otherwise it lists
   * only the patient's other consultations, and a candidate is left out
   * only when ten entries rank before it.
   */
  lemma HistoryMeaning(t: Tables, patientId: Id, appointmentId: Id)
    ensures var h := HistoryOf(t, patientId, appointmentId);
      && Sorted(h) && |h| <= HistoryLimit
      && (ConsultationOf(t.consultations, appointmentId).None? ==> h == [])
      && (ConsultationOf(t.consultations, appointmentId).Some? ==>
            var current := t.consultations[ConsultationOf(t.consultations, appointmentId).value].id;
            && (forall e :: e in h ==>
                  e.id != current
                  && exists c :: c in t.consultations && c.patientId == patientId && HistoryRow(t, c) == Some(e))
            && (forall c :: c in t.consultations && c.patientId == patientId && c.id != current
                            && HistoryRow(t, c).Some? && HistoryRow(t, c).value !in h ==>
                  |h| == HistoryLimit && forall x :: x in h ==> Ranked(x, HistoryRow(t, c).value)))
  {
    var found := ConsultationOf(t.consultations, appointmentId);
    if found.Some? {
      var current := t.consultations[found.value].id;
      var cands := Candidates(t, t.consultations, patientId, current);
      var h := TopEntries(cands);
      TopEntriesSorted(cands);
      forall e | e in h
        ensures e in cands
      {
        TopEntriesMember(cands, e);
      }
      forall c | c in t.consultations && c.patientId == patientId && c.id != current
                 && HistoryRow(t, c).Some? && HistoryRow(t, c).value !in h
        ensures |h| == HistoryLimit && forall x :: x in h ==> Ranked(x, HistoryRow(t, c).value)
      {
        TopEntriesLeftOut(cands, HistoryRow(t, c).value);
      }
    }
  }

  /** What the consultation screen shows. */
  datatype ConsultationView = ConsultationView(
    patient: Patient, appointment: Appointment, history: seq<HistoryEntry>, existing: Option<Consultation>)

  /** `JOIN patients p ON a.patient_id = p.id WHERE a.id = ? [AND a.doctor_id = ?]`: the first joinable row. */
  function OpenAppointment(t: Tables, appointmentId: Id, scope: Scope): Option<nat> {
    FirstWhere(t.appointments, (a: Appointment) => InScope(a, appointmentId, scope) && PatientById(t.patients, a.patientId).Some?)
  }

  /** `getConsultationData`; `None` is the 404 answer. */
  function ConsultationData(t: Tables, caller: Caller, appointmentId: Id): Option<ConsultationView> {
    var scope := ScopeOf(t.doctors, caller);
    if scope == NoProfile then None
    else
      match OpenAppointment(t, appointmentId, scope)
      case None => None
      case Some(k) =>
        var apt := t.appointments[k];
        var patient := t.patients[PatientById(t.patients, apt.patientId).value];
        var existing := match ConsultationOf(t.consultations, appointmentId)
                        case None => None
                        case Some(j) => Some(t.consultations[j]);
        Some(ConsultationView(patient, apt, HistoryOf(t, apt.patientId, appointmentId), existing))
  }

  /**
   * The screen opens exactly when the caller reaches an appointment with
   * the id whose patient is on file; it then shows that appointment, its
   * patient, that patient's history, and the appointment's consultation
   * when there is one.
   */
  lemma ConsultationDataMeaning(t: Tables, caller: Caller, appointmentId: Id)
    ensures var r := ConsultationData(t, caller, appointmentId);
      var scope := ScopeOf(t.doctors, caller);
      && (r.None? <==>
            scope == NoProfile
            || forall k :: 0 <= k < |t.appointments| ==>
                 !(InScope(t.appointments[k], appointmentId, scope)
                   && exists i :: 0 <= i < |t.patients| && t.patients[i].id == t.appointments[k].patientId))
      && (r.Some? ==>
            && r.value.appointment in t.appointments
            && InScope(r.value.appointment, appointmentId, scope)
            && r.value.patient in t.patients
            && r.value.patient.id == r.value.appointment.patientId
            && r.value.history == HistoryOf(t, r.value.patient.id, appointmentId)
            && (r.value.existing.Some? <==> exists j :: 0 <= j < |t.consultations| && t.consultations[j].appointmentId == appointmentId)
            && (r.value.existing.Some? ==> r.value.existing.value in t.consultations
                                           && r.value.existing.value.appointmentId == appointmentId))
  {
    var scope := ScopeOf(t.doctors, caller);
    if scope != NoProfile {
      var found := OpenAppointment(t, appointmentId, scope);
      if found.None? {
        forall k | 0 <= k < |t.appointments| && InScope(t.appointments[k], appointmentId, scope)
          ensures !exists i :: 0 <= i < |t.patients| && t.patients[i].id == t.appointments[k].patientId
        {
          assert PatientById(t.patients, t.appointments[k].patientId).None?;
        }
      } else {
        var apt := t.appointments[found.value];
        assert PatientById(t.patients, apt.patientId).Some?;
        var i := PatientById(t.patients, apt.patientId).value;
        assert t.patients[i].id == apt.patientId;
      }
    }
  }

  // ---------------------------------------------------------------------
  // Templates
  // ---------------------------------------------------------------------

  /**
   * `addTemplate`: 400 when the field type, name or content is missing;
   * otherwise one template owned by the caller's doctor profile (NULL, 0
   * here, without one).
   */
  function NewTemplate(t: Tables, userId: Id, fieldType: string, name: string, content: string): Outcome {
    if fieldType == "" || name == "" || content == "" then Outcome(BadRequest, t)
    else
      Outcome(Created, t.(templates := t.templates + [Template(t.nextTemplateId, DoctorIdOf(t.doctors, userId).GetOr(0),
                                                               fieldType, name, content)],
                          nextTemplateId := t.nextTemplateId + 1))
  }

  method AddTemplate(db: Clinic, userId: Id, fieldType: string, name: string, content: string)
    returns (status: Status)
    modifies db`templates, db`nextTemplateId
    ensures Outcome(status, db.Snapshot()) == NewTemplate(old(db.Snapshot()), userId, fieldType, name, content)
  {
    var doctorId := DoctorIdOf(db.doctors, userId);
    if fieldType == "" || name == "" || content == "" {
      return BadRequest;
    }
    db.templates := db.templates + [Template(db.nextTemplateId, doctorId.GetOr(0), fieldType, name, content)];
    db.nextTemplateId := db.nextTemplateId + 1;
    return Created;
  }

  /** Adding is refused, changing nothing, exactly when a field is missing; otherwise one owned template is appended. */
  lemma NewTemplateCases(t: Tables, userId: Id, fieldType: string, name: string, content: string)
    ensures var o := NewTemplate(t, userId, fieldType, name, content);
      && (o.status == BadRequest <==> fieldType == "" || name == "" || content == "")
      && (o.status == BadRequest ==> o.tables == t)
      && (o.status != BadRequest ==>
            && o.status == Created
            && o.tables == t.(templates := o.tables.templates, nextTemplateId := t.nextTemplateId + 1)
            && |o.tables.templates| == |t.templates| + 1
            && o.tables.templates[..|t.templates|] == t.templates
            && var added := o.tables.templates[|t.templates|];
               && added.fieldType == fieldType && added.name == name && added.content == content
               && added.id == t.nextTemplateId
               && (added.doctorId == 0 <==> DoctorIdOf(t.doctors, userId).None? || DoctorIdOf(t.doctors, userId) == Some(0))
               && (added.doctorId != 0 ==> DoctorIdOf(t.doctors, userId) == Some(added.doctorId)))
  {
  }

  /** `DELETE FROM templates WHERE id = ? AND doctor_id = ?`. */
  function DropTemplate(templates: seq<Template>, id: Id, doctorId: Id): seq<Template> {
    DeleteWhere(templates, (tp: Template) => tp.id == id && tp.doctorId == doctorId)
  }

  /**
   * `deleteTemplate`: always 200. Without a doctor profile the owner test
   * is `doctor_id = NULL`, which no row passes, so nothing is deleted.
   */
  function RemoveTemplate(t: Tables, userId: Id, id: Id): Outcome {
    match DoctorIdOf(t.doctors, userId)
    case None => Outcome(Ok, t)
    case Some(d) => Outcome(Ok, t.(templates := DropTemplate(t.templates, id, d)))
  }

  method DeleteTemplate(db: Clinic, userId: Id, id: Id) returns (status: Status)
    modifies db`templates
    ensures Outcome(status, db.Snapshot()) == RemoveTemplate(old(db.Snapshot()), userId, id)
  {
    var doctorId := DoctorIdOf(db.doctors, userId);
    if doctorId.Some? {
      db.templates := DropTemplate(db.templates, id, doctorId.value);
    }
    return Ok;
  }

  /**
   * A doctor deletes only their own template with that id: every other
   * template stays, none of theirs with that id is left, and nothing else
   * changes; without a profile nothing is deleted.
   */
  lemma RemoveTemplateOwnership(t: Tables, userId: Id, id: Id)
    ensures var o := RemoveTemplate(t, userId, id);
      var owner := DoctorIdOf(t.doctors, userId);
      && o.status == Ok
      && o.tables == t.(templates := o.tables.templates)
      && (owner.None? ==> o.tables.templates == t.templates)
      && (forall k :: 0 <= k < |t.templates| && !(t.templates[k].id == id && owner == Some(t.templates[k].doctorId)) ==>
            t.templates[k] in o.tables.templates)
      && (forall x :: x in o.tables.templates ==> x in t.templates && !(x.id == id && owner == Some(x.doctorId)))
  {
  }

  // ---------------------------------------------------------------------
  // Stored files: paths and content types
  // ---------------------------------------------------------------------

  /** The stored URL with one leading `/uploads/`, or else one leading `uploads/`, removed. */
  function StripUploadsPrefix(url: string): string {
    if StartsWith(url, "/uploads/") then url[|"/uploads/"|..]
    else if StartsWith(url, "uploads/") then url[|"uploads/"|..]
    else url
  }

  /** Exactly one prefix is removed, `/uploads/` first; a URL with neither is kept. */
  lemma StripUploadsPrefixMeaning(rest: string, url: string)
    ensures StripUploadsPrefix("/uploads/" + rest) == rest
    ensures StripUploadsPrefix("uploads/" + rest) == rest
    ensures !StartsWith(url, "/uploads/") && !StartsWith(url, "uploads/") ==> StripUploadsPrefix(url) == url
  {
    assert ("/uploads/" + rest)[..9] == "/uploads/";
    var u := "uploads/" + rest;
    assert u[..8] == "uploads/";
    assert u[0] == 'u';
  }

  /** `uploadConsultationMedia`'s folder: images for `image/`, documents for PDF, others otherwise. */
  function MediaFolder(mimetype: string): Folder {
    if StartsWith(mimetype, "image/") then Images
    else if mimetype == "application/pdf" then Documents
    else Others
  }

  /** The media handler picks the same folder the upload middleware stored the file in. */
  lemma MediaFolderIsDestination(mimetype: string)
    ensures MediaFolder(mimetype) == DestinationFolder(mimetype)
  {
  }

  function MediaFileUrl(mimetype: string, filename: string): string {
    "/uploads/" + MediaFolder(mimetype).Name() + "/" + filename
  }

  /** A media URL, stripped for serving, names the folder the file was stored in. */
  lemma MediaUrlResolves(mimetype: string, filename: string)
    ensures StripUploadsPrefix(MediaFileUrl(mimetype, filename)) == DestinationFolder(mimetype).Name() + "/" + filename
  {
    var rest := MediaFolder(mimetype).Name() + "/" + filename;
    assert MediaFileUrl(mimetype, filename) == "/uploads/" + rest;
    StripUploadsPrefixMeaning(rest, rest);
  }

  /** `uploadReport`'s folder: documents when the type mentions pdf, images otherwise. */
  function ReportFolder(mimetype: string): Folder {
    if Contains(mimetype, "pdf") then Documents else Images
  }

  /** For every type the upload filter admits, the report folder is the folder the file was stored in. */
  lemma ReportFolderAgrees(mimetype: string)
    requires FileFilter(mimetype)
    ensures ReportFolder(mimetype) == DestinationFolder(mimetype)
  {
    AcceptedNeverOthers(mimetype);
    if mimetype == "application/pdf" {
      ContainsSuffix("application/", "pdf");
      assert "application/" + "pdf" == mimetype;
    } else {
      assert 'd' !in mimetype;
      NotContainsMissingChar(mimetype, "pdf", 1);
    }
  }

  /** `fileType`: PDF when the type mentions pdf, IMAGE otherwise. */
  function MediaFileType(mimetype: string): string {
    if Contains(mimetype, "pdf") then "PDF" else "IMAGE"
  }

  /** The inline content type a media file is served with. */
  function InlineContentType(fileType: string): string {
    if fileType == "PDF" then "application/pdf" else "image/jpeg"
  }

  /**
   * Of the admitted uploads, a PDF is served as a PDF and every image as
   * JPEG, so the served type is the uploaded one only for PDF and JPEG.
   */
  lemma InlineTypeOfUpload(mimetype: string)
    requires FileFilter(mimetype)
    ensures InlineContentType(MediaFileType(mimetype)) == (if mimetype == "application/pdf" then "application/pdf" else "image/jpeg")
    ensures InlineContentType(MediaFileType(mimetype)) == mimetype <==> mimetype == "application/pdf" || mimetype == "image/jpeg"
  {
    ReportFolderAgrees(mimetype);
    AcceptedNeverOthers(mimetype);
  }

  /** The extensions a download has a content type for. */
  const KnownExtensions: seq<string> := [".pdf", ".jpg", ".jpeg", ".png", ".gif", ".webp"]

  /** The download content type for a lower-cased extension. */
  function ExtensionContentType(ext: string): (r: string)
    ensures r == "application/octet-stream" <==> ext !in KnownExtensions
    ensures r == "image/jpeg" <==> ext == ".jpg" || ext == ".jpeg"
    ensures r == "application/pdf" <==> ext == ".pdf"
  {
    if ext == ".pdf" then "application/pdf"
    else if ext == ".jpg" || ext == ".jpeg" then "image/jpeg"
    else if ext == ".png" then "image/png"
    else if ext == ".gif" then "image/gif"
    else if ext == ".webp" then "image/webp"
    else "application/octet-stream"
  }

  /** `downloadReport`'s content type: by the extension of the stored name, or of "report" when it has none. */
  function DownloadContentType(fileName: Nullable): string {
    var name := if fileName.Some? then OrDefault(fileName.value, "report") else "report";
    ExtensionContentType(LowerAscii(ExtName(name)))
  }

  /**
   * A plain file name is served by its extension, case-insensitively; a
   * missing name falls back to "report", which has no extension.
   */
  lemma DownloadTypeByExtension(stem: string, ext: string)
    requires |stem| > 0 && '.' !in stem && '/' !in stem
    requires ext == [] || (ext[0] == '.' && '.' !in ext[1..] && '/' !in ext)
    ensures DownloadContentType(Some(stem + ext)) == ExtensionContentType(LowerAscii(ext))
    ensures DownloadContentType(None) == "application/octet-stream"
    ensures DownloadContentType(Some("")) == "application/octet-stream"
  {
    ExtNameOfSuffixed(stem, ext);
    ExtNameOfSuffixed("report", []);
    assert "report" + [] == "report";
  }

  // ---------------------------------------------------------------------
  // Print preferences
  // ---------------------------------------------------------------------

  /** `updatePrintPreferences`: a partial update of the print-layout fields of settings row 1. */
  method UpdatePrintPreferences(db: Clinic, body: Settings.Body) returns (status: Status)
    modifies db`settings
    ensures Outcome(status, db.Snapshot()) == Settings.UpdateSettings(old(db.Snapshot()), Settings.PrintPreferenceFields, body)
  {
    status := Settings.WriteSettings(db, Settings.PrintPreferenceFields, body);
  }
}
