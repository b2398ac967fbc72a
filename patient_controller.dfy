/**
 * src/controllers/patient.controller.js: the patient search, walk-in
 * registration and patient record shared by staff and doctors.
 *
 * The search and the registration are the ones `Registry` defines; this
 * module adds the registration without a creator and the patient record
 * with its visit history.
 */
module PatientController {
  import opened Wrappers
  import opened Records
  import opened Http
  import opened Database
  import opened Registry

  /**
   * `addPatient` (walk-in): the shared registration, with no `created_by`
   * recorded.
   */
  method AddWalkInPatient(db: Clinic, name: string, mobile: string, age: string, gender: string,
                          address: string, today: string)
    returns (status: Status)
    modifies db`patients, db`nextPatientId
    ensures Outcome(status, db.Snapshot()) == RegisterPatient(old(db.Snapshot()), name, mobile, age, gender, address, today, 0)
  {
    status := AddPatient(db, name, mobile, age, gender, address, today, 0);
  }

  /**
   * A walk-in registration that succeeds stores the ten normalised digits,
   * 'Male' for a missing gender, NULL for a missing age or address, and no
   * creator; a walk-in whose digits are already stored is refused.
   */
  lemma WalkInCases(t: Tables, name: string, mobile: string, age: string, gender: string,
                    address: string, today: string)
    ensures var o := RegisterPatient(t, name, mobile, age, gender, address, today, 0);
      && (o.status == Created ==>
            var p := o.tables.patients[|t.patients|];
            && |o.tables.patients| == |t.patients| + 1
            && p.createdBy == 0 && p.mobile == NormalizeMobile(mobile).value && |p.mobile| == 10
            && (gender == "" ==> p.gender == "Male")
            && (age == "" ==> p.age.None?) && (address == "" ==> p.address.None?))
      && (NormalizeMobile(mobile).Some? && PatientByMobile(t.patients, NormalizeMobile(mobile).value).Some? ==>
            o.status == BadRequest && o.tables == t)
  {
    RegisterPatientCases(t, name, mobile, age, gender, address, today, 0);
  }

  // ---------------------------------------------------------------------
  // Patient record
  // ---------------------------------------------------------------------

  /** One row of the visit history: the consultation and what the joins add. */
  datatype VisitRow = VisitRow(consultation: Consultation, date: string, time: string, reason: Nullable,
                               doctorName: Nullable)

  /**
   * `JOIN appointments a ON c.appointment_id = a.id JOIN doctors d ON
   * c.doctor_id = d.id`: a consultation is listed only when both joins find
   * a row.
   */
  function Visit(t: Tables, c: Consultation): (r: Option<VisitRow>)
    ensures r.Some? <==>
      && (exists i :: 0 <= i < |t.appointments| && t.appointments[i].id == c.appointmentId)
      && (exists j :: 0 <= j < |t.doctors| && t.doctors[j].id == c.doctorId)
    ensures r.Some? ==>
      && r.value.consultation == c
      && (exists i :: 0 <= i < |t.appointments| && t.appointments[i].id == c.appointmentId
                       && r.value.date == t.appointments[i].date && r.value.time == t.appointments[i].time
                       && r.value.reason == t.appointments[i].reason)
      && (exists j :: 0 <= j < |t.doctors| && t.doctors[j].id == c.doctorId && r.value.doctorName == t.doctors[j].name)
  {
    match (AppointmentById(t.appointments, c.appointmentId), DoctorById(t.doctors, c.doctorId))
    case (Some(i), Some(j)) =>
      var a := t.appointments[i];
      Some(VisitRow(c, a.date, a.time, a.reason, t.doctors[j].name))
    case _ => None
  }

  /**
   * `WHERE c.patient_id = ? ORDER BY c.created_at DESC`: the patient's
   * joinable consultations, the most recently saved first (a later position
   * in the table stands for a later `created_at`).
   */
  function Visits(t: Tables, cs: seq<Consultation>, patientId: Id): seq<VisitRow> {
    if cs == [] then []
    else
      var rest := Visits(t, cs[1..], patientId);
      var c := cs[0];
      if c.patientId == patientId && Visit(t, c).Some? then rest + [Visit(t, c).value] else rest
  }

  /**
   * The history lists exactly the patient's joinable consultations, each
   * once at most.
   */
  lemma {:induction false} VisitsMeaning(t: Tables, cs: seq<Consultation>, patientId: Id)
    ensures |Visits(t, cs, patientId)| <= |cs|
    ensures forall v :: v in Visits(t, cs, patientId) ==>
      v.consultation in cs && v.consultation.patientId == patientId && Visit(t, v.consultation) == Some(v)
    ensures forall c :: c in cs && c.patientId == patientId && Visit(t, c).Some? ==>
      Visit(t, c).value in Visits(t, cs, patientId)
  {
    if cs != [] {
      VisitsMeaning(t, cs[1..], patientId);
      assert forall x :: x in cs ==> x == cs[0] || x in cs[1..];
      assert forall x :: x in cs[1..] ==> x in cs;
    }
  }

  /**
   * A consultation saved after all the others heads the history when it is
   * the patient's and joinable; the rest of the history keeps its order.
   */
  lemma {:induction false} NewestVisitFirst(t: Tables, cs: seq<Consultation>, c: Consultation, patientId: Id)
    ensures Visits(t, cs + [c], patientId)
         == (if c.patientId == patientId && Visit(t, c).Some? then [Visit(t, c).value] else []) + Visits(t, cs, patientId)
  {
    if cs == [] {
      assert [c][1..] == [];
    } else {
      assert (cs + [c])[1..] == cs[1..] + [c];
      NewestVisitFirst(t, cs[1..], c, patientId);
    }
  }

  /** The patient record: the patient row and the visit history. */
  datatype PatientView = PatientView(patient: Patient, history: seq<VisitRow>)

  /** `getPatientById`; `None` is the 404 answer. */
  function PatientRecord(t: Tables, id: Id): Option<PatientView> {
    match PatientById(t.patients, id)
    case None => None
    case Some(k) => Some(PatientView(t.patients[k], Visits(t, t.consultations, id)))
  }

  /**
   * `getPatientById` answers 404 exactly for an unknown id; otherwise it
   * shows the first patient with the id, and its history lists exactly the
   * patient's consultations whose appointment and doctor exist.
   */
  lemma PatientRecordMeaning(t: Tables, id: Id)
    ensures PatientRecord(t, id).None? <==> forall k :: 0 <= k < |t.patients| ==> t.patients[k].id != id
    ensures PatientRecord(t, id).Some? ==>
      var v := PatientRecord(t, id).value;
      && v.patient.id == id && v.patient in t.patients
      && (forall row :: row in v.history ==> row.consultation in t.consultations && row.consultation.patientId == id)
      && (forall c :: c in t.consultations && c.patientId == id && Visit(t, c).Some? ==> Visit(t, c).value in v.history)
  {
    VisitsMeaning(t, t.consultations, id);
  }

  /** Saving a consultation for a known patient puts it at the top of the patient's record. */
  lemma SavedConsultationHeadsRecord(t: Tables, c: Consultation)
    requires PatientById(t.patients, c.patientId).Some? && Visit(t, c).Some?
    ensures var v := PatientRecord(t.(consultations := t.consultations + [c]), c.patientId);
      v.Some? && |v.value.history| >= 1 && v.value.history[0] == Visit(t, c).value
  {
    var t' := t.(consultations := t.consultations + [c]);
    NewestVisitFirst(t', t.consultations, c, c.patientId);
    assert Visit(t', c) == Visit(t, c);
  }
}
