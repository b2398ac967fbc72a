/**
 * Appointment slots. A slot is a (doctor, date, time) triple; an appointment
 * holds its slot unless it is cancelled, and booking refuses a slot that is
 * held.
 */
module Scheduling {
  import opened Wrappers
  import opened Records
  import opened Database
  import opened Registry
  import ResponseHelper

  /** The booking form. Empty text and the id 0 stand for a missing field. */
  datatype BookingRequest = BookingRequest(
    patientId: Id, patientName: string, patientMobile: string, patientAge: string,
    patientGender: string, date: string, time: string, doctorId: Id, reason: string)

  /** A request missing the date, time or doctor, or a new patient's name or mobile. */
  predicate MissingFields(req: BookingRequest) {
    || req.date == "" || req.time == "" || req.doctorId == 0
    || (req.patientId == 0 && (req.patientName == "" || req.patientMobile == ""))
  }

  /** The stored time of a slot: `formatTime` of a present, non-empty time. */
  function SlotTime(time: string): (r: string)
    requires time != ""
  {
    ResponseHelper.FormatTime(Some(time)).value
  }

  /** `doctor_id = ? AND appointment_date = ? AND appointment_time = ? AND status != 'Cancelled'`. */
  predicate Holds(a: Appointment, doctorId: Id, date: string, time: string) {
    a.doctorId == doctorId && a.date == date && a.time == time && a.status != Cancelled
  }

  /** Some appointment holds the slot. */
  predicate SlotTaken(appointments: seq<Appointment>, doctorId: Id, date: string, time: string) {
    exists k :: 0 <= k < |appointments| && Holds(appointments[k], doctorId, date, time)
  }

  /** No two appointments hold the same slot. */
  predicate SlotsUnique(appointments: seq<Appointment>) {
    forall i, j :: 0 <= i < j < |appointments| && appointments[i].status != Cancelled ==>
      !Holds(appointments[j], appointments[i].doctorId, appointments[i].date, appointments[i].time)
  }

  /** Adding an appointment for a slot nobody holds keeps the slots unique. */
  lemma BookFreeSlot(appointments: seq<Appointment>, a: Appointment)
    requires SlotsUnique(appointments)
    requires !SlotTaken(appointments, a.doctorId, a.date, a.time)
    ensures SlotsUnique(appointments + [a])
  {
    var s := appointments + [a];
    forall i, j | 0 <= i < j < |s| && s[i].status != Cancelled
      ensures !Holds(s[j], s[i].doctorId, s[i].date, s[i].time)
    {
      if j == |appointments| {
        assert !Holds(appointments[i], a.doctorId, a.date, a.time);
      }
    }
  }

  /** `UPDATE appointments SET status = ? WHERE id = ?`. */
  function SetStatus(appointments: seq<Appointment>, id: Id, status: AppointmentStatus): (r: seq<Appointment>)
    ensures |r| == |appointments|
    ensures forall k :: 0 <= k < |r| && appointments[k].id == id ==> r[k] == appointments[k].(status := status)
    ensures forall k :: 0 <= k < |r| && appointments[k].id != id ==> r[k] == appointments[k]
  {
    UpdateWhere(appointments, (a: Appointment) => a.id == id, (a: Appointment) => a.(status := status))
  }

  /** A status update keeps every appointment id, so keeps them below the counter. */
  lemma SetStatusKeepsIds(appointments: seq<Appointment>, id: Id, status: AppointmentStatus, next: Id)
    requires AppointmentIdsBelow(appointments, next)
    ensures AppointmentIdsBelow(SetStatus(appointments, id, status), next)
  {
    var r := SetStatus(appointments, id, status);
    assert forall k :: 0 <= k < |r| ==> r[k].id == appointments[k].id;
  }

  /** Setting a status other than Cancelled never frees a slot. */
  lemma SetStatusKeepsHeldSlots(appointments: seq<Appointment>, id: Id, status: AppointmentStatus,
                                doctorId: Id, date: string, time: string)
    requires status != Cancelled
    requires SlotTaken(appointments, doctorId, date, time)
    ensures SlotTaken(SetStatus(appointments, id, status), doctorId, date, time)
  {
    var k :| 0 <= k < |appointments| && Holds(appointments[k], doctorId, date, time);
    assert Holds(SetStatus(appointments, id, status)[k], doctorId, date, time);
  }

  /** Cancelling frees the slots of the cancelled rows and keeps the slots unique. */
  lemma CancelKeepsSlotsUnique(appointments: seq<Appointment>, id: Id)
    requires SlotsUnique(appointments)
    ensures SlotsUnique(SetStatus(appointments, id, Cancelled))
  {
    var s := SetStatus(appointments, id, Cancelled);
    forall i, j | 0 <= i < j < |s| && s[i].status != Cancelled
      ensures !Holds(s[j], s[i].doctorId, s[i].date, s[i].time)
    {
      assert s[i] == appointments[i];
    }
  }

  /**
   * `INSERT INTO appointments ... 'Waiting'` for a resolved patient, then
   * `UPDATE patients SET total_visits = total_visits + 1, last_visit = ?`.
   */
  function Enter(t: Tables, patientId: Id, doctorId: Id, date: string, time: string,
                 reason: string, fee: int, userId: Id): (r: Tables)
    ensures r.appointments == t.appointments + [Appointment(t.nextAppointmentId, patientId, doctorId,
                                                            date, time, OrNull(reason), fee, Waiting, userId)]
    ensures r.patients == BumpVisits(t.patients, patientId, date)
    ensures r == t.(patients := r.patients, appointments := r.appointments,
                    nextAppointmentId := t.nextAppointmentId + 1)
  {
    t.(patients := BumpVisits(t.patients, patientId, date),
       appointments := t.appointments + [Appointment(t.nextAppointmentId, patientId, doctorId,
                                                     date, time, OrNull(reason), fee, Waiting, userId)],
       nextAppointmentId := t.nextAppointmentId + 1)
  }

  /** The appointment insert and the visit update; returns the new appointment's id. */
  method EnterAppointment(db: Clinic, patientId: Id, doctorId: Id, date: string, time: string,
                          reason: string, fee: int, userId: Id)
    returns (appointmentId: Id)
    modifies db
    ensures appointmentId == old(db.nextAppointmentId)
    ensures db.Snapshot() == Enter(old(db.Snapshot()), patientId, doctorId, date, time, reason, fee, userId)
  {
    appointmentId := db.nextAppointmentId;
    db.appointments := db.appointments + [Appointment(appointmentId, patientId, doctorId, date, time,
                                                      OrNull(reason), fee, Waiting, userId)];
    db.nextAppointmentId := appointmentId + 1;
    db.patients := BumpVisits(db.patients, patientId, date);
  }

  /** Entering an appointment for a free slot keeps the slots unique. */
  lemma EnterKeepsSlotsUnique(t: Tables, patientId: Id, doctorId: Id, date: string, time: string,
                              reason: string, fee: int, userId: Id)
    requires SlotsUnique(t.appointments)
    requires !SlotTaken(t.appointments, doctorId, date, time)
    ensures SlotsUnique(Enter(t, patientId, doctorId, date, time, reason, fee, userId).appointments)
  {
    BookFreeSlot(t.appointments, Appointment(t.nextAppointmentId, patientId, doctorId,
                                             date, time, OrNull(reason), fee, Waiting, userId));
  }

  /** Entering an appointment keeps every id below its counter. */
  lemma EnterKeepsValid(t: Tables, patientId: Id, doctorId: Id, date: string, time: string,
                        reason: string, fee: int, userId: Id)
    requires Valid(t)
    ensures Valid(Enter(t, patientId, doctorId, date, time, reason, fee, userId))
  {
    var r := Enter(t, patientId, doctorId, date, time, reason, fee, userId);
    assert forall k :: 0 <= k < |r.patients| ==> r.patients[k].id == t.patients[k].id;
  }
}
