/**
 * The in-memory copy of the clinic database the handlers run against: one
 * sequence of rows per table, in insertion (primary-key) order, and one
 * auto-increment counter per table. Queries become the generic row
 * operations below; `SELECT ... LIMIT 1` and `rows[0]` read the first
 * matching row.
 */
module Database {
  import opened Wrappers
  import opened Records
  import opened Billing
  import opened Http

  // ---------------------------------------------------------------------
  // Row operations
  // ---------------------------------------------------------------------

  /** Index of the first row satisfying `p`, or `None` when no row does. */
  function FirstWhere<T>(rows: seq<T>, p: T -> bool): (r: Option<nat>)
    ensures r.Some? ==> r.value < |rows| && p(rows[r.value])
    ensures r.Some? ==> forall k :: 0 <= k < r.value ==> !p(rows[k])
    ensures r.None? <==> forall k :: 0 <= k < |rows| ==> !p(rows[k])
  {
    if rows == [] then None
    else if p(rows[0]) then Some(0)
    else
      match FirstWhere(rows[1..], p)
      case None => None
      case Some(i) => Some(i + 1)
  }

  /** `UPDATE ... WHERE p`: every matching row is rewritten by `f`, the rest stay. */
  function UpdateWhere<T>(rows: seq<T>, p: T -> bool, f: T -> T): (r: seq<T>)
    ensures |r| == |rows|
    ensures forall k :: 0 <= k < |rows| && p(rows[k]) ==> r[k] == f(rows[k])
    ensures forall k :: 0 <= k < |rows| && !p(rows[k]) ==> r[k] == rows[k]
  {
    seq(|rows|, k requires 0 <= k < |rows| => if p(rows[k]) then f(rows[k]) else rows[k])
  }

  /** `DELETE ... WHERE p`: the rows not matching, in their order. */
  function DeleteWhere<T>(rows: seq<T>, p: T -> bool): (r: seq<T>)
    ensures |r| <= |rows|
    ensures forall k :: 0 <= k < |r| ==> !p(r[k])
    ensures forall x :: x in r ==> x in rows
    ensures forall k :: 0 <= k < |rows| && !p(rows[k]) ==> rows[k] in r
  {
    if rows == [] then []
    else if p(rows[0]) then DeleteWhere(rows[1..], p)
    else [rows[0]] + DeleteWhere(rows[1..], p)
  }

  /** `SELECT COUNT(*) ... WHERE p`. */
  function CountWhere<T>(rows: seq<T>, p: T -> bool): (n: nat)
    ensures n <= |rows|
    ensures n == 0 <==> forall k :: 0 <= k < |rows| ==> !p(rows[k])
  {
    if rows == [] then 0
    else (if p(rows[0]) then 1 else 0) + CountWhere(rows[1..], p)
  }

  /** Deleting nothing that matches leaves the table as it was. */
  lemma {:induction false} DeleteNothing<T>(rows: seq<T>, p: T -> bool)
    requires forall k :: 0 <= k < |rows| ==> !p(rows[k])
    ensures DeleteWhere(rows, p) == rows
  {
    if rows != [] {
      DeleteNothing(rows[1..], p);
      assert [rows[0]] + rows[1..] == rows;
    }
  }

  /** Counting over a table with one more row. */
  lemma {:induction false} CountAppend<T>(rows: seq<T>, x: T, p: T -> bool)
    ensures CountWhere(rows + [x], p) == CountWhere(rows, p) + (if p(x) then 1 else 0)
  {
    if rows == [] {
      assert rows + [x] == [x];
    } else {
      assert (rows + [x])[1..] == rows[1..] + [x];
      CountAppend(rows[1..], x, p);
    }
  }

  // ---------------------------------------------------------------------
  // Lookups by key
  // ---------------------------------------------------------------------

  /** `SELECT ... FROM appointments WHERE id = ?`: the first row with the id. */
  function AppointmentById(appointments: seq<Appointment>, id: Id): Option<nat> {
    FirstWhere(appointments, (a: Appointment) => a.id == id)
  }

  /** `SELECT ... FROM doctors WHERE id = ?`: the first row with the id. */
  function DoctorById(doctors: seq<Doctor>, id: Id): Option<nat> {
    FirstWhere(doctors, (d: Doctor) => d.id == id)
  }

  /** `SELECT id FROM payments WHERE appointment_id = ?`: the first payment for the appointment. */
  function PaymentFor(payments: seq<Payment>, appointmentId: Id): Option<nat> {
    FirstWhere(payments, (p: Payment) => p.appointmentId == appointmentId)
  }

  /** Some payment references the appointment. */
  predicate Paid(payments: seq<Payment>, appointmentId: Id) {
    PaymentFor(payments, appointmentId).Some?
  }

  // ---------------------------------------------------------------------
  // The database
  // ---------------------------------------------------------------------

  /** The whole database as a value. */
  datatype Tables = Tables(
    patients: seq<Patient>, nextPatientId: Id,
    appointments: seq<Appointment>, nextAppointmentId: Id,
    consultations: seq<Consultation>, nextConsultationId: Id,
    payments: seq<Payment>, nextPaymentId: Id,
    invoices: seq<Invoice>, nextInvoiceId: Id,
    users: seq<User>, nextUserId: Id,
    doctors: seq<Doctor>, nextDoctorId: Id,
    staff: seq<StaffMember>, nextStaffId: Id,
    templates: seq<Template>, nextTemplateId: Id,
    settings: seq<SettingsRow>, nextSettingsId: Id)

  /** An empty database whose counters all start at 1. */
  function EmptyTables(): Tables {
    Tables([], 1, [], 1, [], 1, [], 1, [], 1, [], 1, [], 1, [], 1, [], 1, [], 1)
  }

  /**
   * Auto-increment keeps every id in [1, counter), so the id the counter
   * hands out next is not yet used in its table.
   */
  predicate Valid(t: Tables) {
    && t.nextPatientId >= 1 && t.nextAppointmentId >= 1 && t.nextConsultationId >= 1
    && t.nextPaymentId >= 1 && t.nextInvoiceId >= 1 && t.nextUserId >= 1
    && t.nextDoctorId >= 1 && t.nextStaffId >= 1 && t.nextTemplateId >= 1 && t.nextSettingsId >= 1
    && PatientIdsBelow(t.patients, t.nextPatientId)
    && AppointmentIdsBelow(t.appointments, t.nextAppointmentId)
    && ConsultationIdsBelow(t.consultations, t.nextConsultationId)
    && PaymentIdsBelow(t.payments, t.nextPaymentId)
    && InvoiceIdsBelow(t.invoices, t.nextInvoiceId)
    && UserIdsBelow(t.users, t.nextUserId)
    && DoctorIdsBelow(t.doctors, t.nextDoctorId)
    && StaffIdsBelow(t.staff, t.nextStaffId)
    && TemplateIdsBelow(t.templates, t.nextTemplateId)
    && SettingsIdsBelow(t.settings, t.nextSettingsId)
  }

  /** Every row of one table has its id in [1, next). */
  predicate PatientIdsBelow(rows: seq<Patient>, next: Id) {
    forall k :: 0 <= k < |rows| ==> 1 <= rows[k].id < next
  }

  predicate AppointmentIdsBelow(rows: seq<Appointment>, next: Id) {
    forall k :: 0 <= k < |rows| ==> 1 <= rows[k].id < next
  }

  predicate ConsultationIdsBelow(rows: seq<Consultation>, next: Id) {
    forall k :: 0 <= k < |rows| ==> 1 <= rows[k].id < next
  }

  predicate PaymentIdsBelow(rows: seq<Payment>, next: Id) {
    forall k :: 0 <= k < |rows| ==> 1 <= rows[k].id < next
  }

  predicate InvoiceIdsBelow(rows: seq<Invoice>, next: Id) {
    forall k :: 0 <= k < |rows| ==> 1 <= rows[k].id < next
  }

  predicate UserIdsBelow(rows: seq<User>, next: Id) {
    forall k :: 0 <= k < |rows| ==> 1 <= rows[k].id < next
  }

  predicate DoctorIdsBelow(rows: seq<Doctor>, next: Id) {
    forall k :: 0 <= k < |rows| ==> 1 <= rows[k].id < next
  }

  predicate StaffIdsBelow(rows: seq<StaffMember>, next: Id) {
    forall k :: 0 <= k < |rows| ==> 1 <= rows[k].id < next
  }

  predicate TemplateIdsBelow(rows: seq<Template>, next: Id) {
    forall k :: 0 <= k < |rows| ==> 1 <= rows[k].id < next
  }

  predicate SettingsIdsBelow(rows: seq<SettingsRow>, next: Id) {
    forall k :: 0 <= k < |rows| ==> 1 <= rows[k].id < next
  }

  /** A handler's answer: the status it responds with and the tables it leaves. */
  datatype Outcome = Outcome(status: Status, tables: Tables)

  /**
   * The database the handlers share. Each handler reads and rewrites the
   * tables step by step, in the order its queries run.
   */
  class Clinic {
    var patients: seq<Patient>
    var nextPatientId: Id
    var appointments: seq<Appointment>
    var nextAppointmentId: Id
    var consultations: seq<Consultation>
    var nextConsultationId: Id
    var payments: seq<Payment>
    var nextPaymentId: Id
    var invoices: seq<Invoice>
    var nextInvoiceId: Id
    var users: seq<User>
    var nextUserId: Id
    var doctors: seq<Doctor>
    var nextDoctorId: Id
    var staff: seq<StaffMember>
    var nextStaffId: Id
    var templates: seq<Template>
    var nextTemplateId: Id
    var settings: seq<SettingsRow>
    var nextSettingsId: Id

    /** The current contents of every table. */
    function Snapshot(): Tables
      reads this
    {
      Tables(patients, nextPatientId, appointments, nextAppointmentId,
             consultations, nextConsultationId, payments, nextPaymentId,
             invoices, nextInvoiceId, users, nextUserId, doctors, nextDoctorId,
             staff, nextStaffId, templates, nextTemplateId, settings, nextSettingsId)
    }

    /** A fresh, empty database. */
    constructor ()
      ensures Snapshot() == EmptyTables()
      ensures Valid(Snapshot())
    {
      patients, nextPatientId := [], 1;
      appointments, nextAppointmentId := [], 1;
      consultations, nextConsultationId := [], 1;
      payments, nextPaymentId := [], 1;
      invoices, nextInvoiceId := [], 1;
      users, nextUserId := [], 1;
      doctors, nextDoctorId := [], 1;
      staff, nextStaffId := [], 1;
      templates, nextTemplateId := [], 1;
      settings, nextSettingsId := [], 1;
    }
  }
}
