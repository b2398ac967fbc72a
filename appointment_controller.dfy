/**
 * Booking an appointment and changing its status: the slot guard, the
 * patient lookup-or-create, the fee snapshot and the best-effort payment and
 * invoice made at booking time.
 */
module AppointmentController {
  import opened Wrappers
  import opened Records
  import opened Billing
  import opened Http
  import opened Database
  import opened Registry
  import opened Scheduling
  import opened Ledger
  import ResponseHelper

  /** Where the swallowed billing block stops: nowhere, at the payment, or at the invoice. */
  datatype BillingFault = Healthy | PaymentFails | InvoiceFails

  /** The fee snapshot: the given fee, or 0 when none is given. */
  function FeeAmount(fee: Option<int>): int {
    fee.GetOr(0)
  }

  /** The patient a valid booking is for. */
  function Resolved(t: Tables, req: BookingRequest, userId: Id, today: string): Resolution {
    ResolvePatient(t.patients, t.nextPatientId, req.patientId, req.patientName, req.patientMobile,
                   req.patientAge, req.patientGender, today, userId)
  }

  /** The booking-time payment and invoice, for a positive fee, up to the point a fault stops them. */
  function Charge(t: Tables, appointmentId: Id, patientId: Id, doctorId: Id, fee: int,
                  date: string, userId: Id, fault: BillingFault): Tables
  {
    if fee <= 0 || fault == PaymentFails then t
    else
      var paid := WithPayment(t, appointmentId, patientId, doctorId, fee, date, "Cash", None, userId);
      if fault == InvoiceFails then paid
      else WithInvoice(paid, appointmentId, patientId, doctorId, fee, date)
  }

  /** `createAppointment` as a function of the tables before the request. */
  function Book(t: Tables, req: BookingRequest, fee: Option<int>, userId: Id, today: string,
                formatDate: string -> string, fault: BillingFault): Outcome
  {
    if MissingFields(req) then Outcome(BadRequest, t)
    else Admit(t, req, fee, userId, today, formatDate(req.date), SlotTime(req.time), fault)
  }

  /** The booking once its fields are present, for the formatted date and time. */
  function Admit(t: Tables, req: BookingRequest, fee: Option<int>, userId: Id, today: string,
                 date: string, time: string, fault: BillingFault): Outcome
  {
    if SlotTaken(t.appointments, req.doctorId, date, time) then Outcome(BadRequest, t)
    else
      var res := Resolved(t, req, userId, today);
      var entered := Enter(t.(patients := res.patients, nextPatientId := res.nextPatientId),
                           res.patientId, req.doctorId, date, time, req.reason, FeeAmount(fee), userId);
      Outcome(Created, Charge(entered, t.nextAppointmentId, res.patientId, req.doctorId,
                              FeeAmount(fee), date, userId, fault))
  }

  /** `createAppointment`: the handler, step by step, against the shared database. */
  method CreateAppointment(db: Clinic, req: BookingRequest, fee: Option<int>, userId: Id, today: string,
                           formatDate: string -> string, fault: BillingFault)
    returns (status: Status)
    modifies db
    ensures Outcome(status, db.Snapshot()) == Book(old(db.Snapshot()), req, fee, userId, today, formatDate, fault)
  {
    if req.date == "" || req.time == "" || req.doctorId == 0 {
      return BadRequest;
    }
    if req.patientId == 0 && (req.patientName == "" || req.patientMobile == "") {
      return BadRequest;
    }
    var date := formatDate(req.date);
    var time := SlotTime(req.time);
    if SlotTaken(db.appointments, req.doctorId, date, time) {
      return BadRequest;
    }
    ghost var t := db.Snapshot();
    var patientId := FindOrAddPatient(db, req.patientId, req.patientName, req.patientMobile,
                                      req.patientAge, req.patientGender, today, userId);
    var amount := FeeAmount(fee);
    var appointmentId := EnterAppointment(db, patientId, req.doctorId, date, time, req.reason, amount, userId);
    ChargeBooking(db, appointmentId, patientId, req.doctorId, amount, date, userId, fault);
    return Created;
  }

  /** The swallowed billing block: payment, then invoice, each only if nothing failed before it. */
  method ChargeBooking(db: Clinic, appointmentId: Id, patientId: Id, doctorId: Id, fee: int,
                       date: string, userId: Id, fault: BillingFault)
    modifies db
    ensures db.Snapshot() == Charge(old(db.Snapshot()), appointmentId, patientId, doctorId, fee, date, userId, fault)
  {
    if fee > 0 && fault != PaymentFails {
      InsertPayment(db, appointmentId, patientId, doctorId, fee, date, "Cash", None, userId);
      if fault == Healthy {
        InsertInvoice(db, appointmentId, patientId, doctorId, fee, date);
      }
    }
  }

  // ---------------------------------------------------------------------
  // Properties of a booking
  // ---------------------------------------------------------------------

  /**
   * A booking answers 400 exactly when a field is missing or the slot is
   * held, and then changes nothing; otherwise it answers 201.
   */
  lemma BookRefusals(t: Tables, req: BookingRequest, fee: Option<int>, userId: Id, today: string,
                     formatDate: string -> string, fault: BillingFault)
    ensures var o := Book(t, req, fee, userId, today, formatDate, fault);
      && (o.status == BadRequest || o.status == Created)
      && (o.status == BadRequest <==>
            MissingFields(req)
            || SlotTaken(t.appointments, req.doctorId, formatDate(req.date), SlotTime(req.time)))
      && (o.status == BadRequest ==> o.tables == t)
  {
  }

  /**
   * An admitted booking adds exactly one appointment: Waiting, for the slot
   * asked for, for the resolved patient, with the fee snapshot (0 when no fee
   * is given).
   */
  lemma AdmitAddsAppointment(t: Tables, req: BookingRequest, fee: Option<int>, userId: Id, today: string,
                             date: string, time: string, fault: BillingFault)
    requires !SlotTaken(t.appointments, req.doctorId, date, time)
    ensures var o := Admit(t, req, fee, userId, today, date, time, fault);
      && o.status == Created
      && o.tables.appointments == t.appointments + [Appointment(
           t.nextAppointmentId, Resolved(t, req, userId, today).patientId, req.doctorId,
           date, time, OrNull(req.reason), if fee.Some? then fee.value else 0, Waiting, userId)]
      && o.tables.nextAppointmentId == t.nextAppointmentId + 1
  {
  }

  /**
   * The resolved patient's visit count rises by one and their last visit
   * becomes the booking date; every other patient row is unchanged.
   */
  lemma AdmitCountsVisit(t: Tables, req: BookingRequest, fee: Option<int>, userId: Id, today: string,
                         date: string, time: string, fault: BillingFault)
    requires !SlotTaken(t.appointments, req.doctorId, date, time)
    ensures var o := Admit(t, req, fee, userId, today, date, time, fault);
      var res := Resolved(t, req, userId, today);
      && |o.tables.patients| == |res.patients|
      && forall k :: 0 <= k < |res.patients| ==>
           o.tables.patients[k] ==
             if res.patients[k].id == res.patientId
             then res.patients[k].(totalVisits := res.patients[k].totalVisits + 1, lastVisit := Some(date))
             else res.patients[k]
  {
  }

  /**
   * A positive fee gives one Cash payment of the fee on the booking date and,
   * unless a fault stops it, one invoice numbered from the invoice count; a
   * fee of 0 or less gives neither. A fault is swallowed: the answer is still 201.
   */
  lemma AdmitBilling(t: Tables, req: BookingRequest, fee: Option<int>, userId: Id, today: string,
                     date: string, time: string, fault: BillingFault)
    requires !SlotTaken(t.appointments, req.doctorId, date, time)
    ensures var o := Admit(t, req, fee, userId, today, date, time, fault);
      var pid := Resolved(t, req, userId, today).patientId;
      var amount := FeeAmount(fee);
      && o.status == Created
      && (amount > 0 && fault != PaymentFails ==>
            o.tables.payments == t.payments + [Payment(t.nextPaymentId, t.nextAppointmentId, pid,
                                   req.doctorId, amount, date, "Cash", "Completed", None, userId)])
      && (amount <= 0 || fault == PaymentFails ==> o.tables.payments == t.payments)
      && (amount > 0 && fault == Healthy ==>
            o.tables.invoices == t.invoices + [Invoice(t.nextInvoiceId, InvoiceNumber(|t.invoices| + 1),
                                   t.nextAppointmentId, pid, req.doctorId, amount, date, "Generated")])
      && (amount <= 0 || fault != Healthy ==> o.tables.invoices == t.invoices)
  {
  }

  /** Booking never gives a held slot to a second appointment. */
  lemma BookKeepsSlotsUnique(t: Tables, req: BookingRequest, fee: Option<int>, userId: Id, today: string,
                             formatDate: string -> string, fault: BillingFault)
    requires SlotsUnique(t.appointments)
    ensures SlotsUnique(Book(t, req, fee, userId, today, formatDate, fault).tables.appointments)
  {
    if !MissingFields(req) {
      AdmitKeepsSlotsUnique(t, req, fee, userId, today, formatDate(req.date), SlotTime(req.time), fault);
    }
  }

  lemma AdmitKeepsSlotsUnique(t: Tables, req: BookingRequest, fee: Option<int>, userId: Id, today: string,
                              date: string, time: string, fault: BillingFault)
    requires SlotsUnique(t.appointments)
    ensures SlotsUnique(Admit(t, req, fee, userId, today, date, time, fault).tables.appointments)
  {
    if !SlotTaken(t.appointments, req.doctorId, date, time) {
      var res := Resolved(t, req, userId, today);
      EnterKeepsSlotsUnique(t.(patients := res.patients, nextPatientId := res.nextPatientId),
                            res.patientId, req.doctorId, date, time, req.reason, FeeAmount(fee), userId);
    }
  }

  /** Booking keeps the invoice table numbered INV-000001, INV-000002, ... */
  lemma BookKeepsInvoicesNumbered(t: Tables, req: BookingRequest, fee: Option<int>, userId: Id, today: string,
                                  formatDate: string -> string, fault: BillingFault)
    requires InvoicesNumbered(t.invoices)
    ensures InvoicesNumbered(Book(t, req, fee, userId, today, formatDate, fault).tables.invoices)
  {
    if !MissingFields(req) {
      AdmitKeepsInvoicesNumbered(t, req, fee, userId, today, formatDate(req.date), SlotTime(req.time), fault);
    }
  }

  lemma AdmitKeepsInvoicesNumbered(t: Tables, req: BookingRequest, fee: Option<int>, userId: Id, today: string,
                                   date: string, time: string, fault: BillingFault)
    requires InvoicesNumbered(t.invoices)
    ensures InvoicesNumbered(Admit(t, req, fee, userId, today, date, time, fault).tables.invoices)
  {
    if !SlotTaken(t.appointments, req.doctorId, date, time) && FeeAmount(fee) > 0 && fault == Healthy {
      AdmitBilling(t, req, fee, userId, today, date, time, fault);
      var o := Admit(t, req, fee, userId, today, date, time, fault);
      var inv := o.tables.invoices[|t.invoices|];
      assert o.tables.invoices == t.invoices + [inv];
      AppendKeepsNumbered(t.invoices, inv);
    }
  }

  /** Booking keeps every id below its table's counter. */
  lemma BookKeepsValid(t: Tables, req: BookingRequest, fee: Option<int>, userId: Id, today: string,
                       formatDate: string -> string, fault: BillingFault)
    requires Valid(t)
    ensures Valid(Book(t, req, fee, userId, today, formatDate, fault).tables)
  {
    if !MissingFields(req) {
      AdmitKeepsValid(t, req, fee, userId, today, formatDate(req.date), SlotTime(req.time), fault);
    }
  }

  lemma AdmitKeepsValid(t: Tables, req: BookingRequest, fee: Option<int>, userId: Id, today: string,
                        date: string, time: string, fault: BillingFault)
    requires Valid(t)
    ensures Valid(Admit(t, req, fee, userId, today, date, time, fault).tables)
  {
    if !SlotTaken(t.appointments, req.doctorId, date, time) {
      var res := Resolved(t, req, userId, today);
      ResolvePatientAppends(t.patients, t.nextPatientId, req.patientId, req.patientName, req.patientMobile,
                            req.patientAge, req.patientGender, today, userId);
      var t1 := t.(patients := res.patients, nextPatientId := res.nextPatientId);
      assert Valid(t1);
      EnterKeepsValid(t1, res.patientId, req.doctorId, date, time, req.reason, FeeAmount(fee), userId);
      var entered := Enter(t1, res.patientId, req.doctorId, date, time, req.reason, FeeAmount(fee), userId);
      ChargeKeepsValid(entered, t.nextAppointmentId, res.patientId, req.doctorId, FeeAmount(fee), date,
                       userId, fault);
    }
  }

  lemma ChargeKeepsValid(t: Tables, appointmentId: Id, patientId: Id, doctorId: Id, fee: int,
                         date: string, userId: Id, fault: BillingFault)
    requires Valid(t)
    ensures Valid(Charge(t, appointmentId, patientId, doctorId, fee, date, userId, fault))
  {
    LedgerKeepsValid(t, appointmentId, patientId, doctorId, fee, date, "Cash", None, userId);
    var paid := WithPayment(t, appointmentId, patientId, doctorId, fee, date, "Cash", None, userId);
    LedgerKeepsValid(paid, appointmentId, patientId, doctorId, fee, date, "Cash", None, userId);
  }

  // ---------------------------------------------------------------------
  // Status changes
  // ---------------------------------------------------------------------

  /** `updateAppointmentStatus` as a function of the tables before the request. */
  function ChangeStatus(t: Tables, id: Id, status: string): Outcome {
    if status == "" then Outcome(BadRequest, t)
    else
      match ParseStatus(status)
      case None => Outcome(BadRequest, t)
      case Some(s) => Outcome(Ok, t.(appointments := SetStatus(t.appointments, id, s)))
  }

  /** `updateAppointmentStatus`: validate the name, then overwrite the status of the rows with the id. */
  method UpdateAppointmentStatus(db: Clinic, id: Id, status: string) returns (result: Status)
    modifies db`appointments
    ensures Outcome(result, db.Snapshot()) == ChangeStatus(old(db.Snapshot()), id, status)
  {
    if status == "" {
      return BadRequest;
    }
    var parsed := ParseStatus(status);
    if parsed.None? {
      return BadRequest;
    }
    db.appointments := SetStatus(db.appointments, id, parsed.value);
    return Ok;
  }

  /**
   * A name outside the four statuses (the empty one included) is refused with
   * 400 and nothing changes; a valid name is written to every row with the id,
   * whatever its previous status, and answered 200 even when no row has the id.
   */
  lemma ChangeStatusCases(t: Tables, id: Id, status: string)
    ensures var o := ChangeStatus(t, id, status);
      && (o.status == BadRequest <==> ParseStatus(status).None?)
      && (o.status == BadRequest ==> o.tables == t)
      && (o.status == Ok ==>
            && o.tables == t.(appointments := o.tables.appointments)
            && |o.tables.appointments| == |t.appointments|
            && forall k :: 0 <= k < |t.appointments| ==>
                 o.tables.appointments[k] ==
                   if t.appointments[k].id == id then t.appointments[k].(status := ParseStatus(status).value)
                   else t.appointments[k])
  {
  }

  /** Cancelling keeps the slots unique. */
  lemma CancellingKeepsSlotsUnique(t: Tables, id: Id)
    requires SlotsUnique(t.appointments)
    ensures SlotsUnique(ChangeStatus(t, id, "Cancelled").tables.appointments)
  {
    CancelKeepsSlotsUnique(t.appointments, id);
  }

  /**
   * Reviving a cancelled appointment whose slot was booked again gives two
   * live appointments for one slot: the uniqueness booking keeps is not kept here.
   */
  lemma StatusChangeCanDoubleBook()
    ensures var kept := Appointment(1, 1, 1, "2024-05-01", "10:00:00", None, 0, Waiting, 0);
      var cancelled := Appointment(2, 2, 1, "2024-05-01", "10:00:00", None, 0, Cancelled, 0);
      var t := EmptyTables().(appointments := [kept, cancelled], nextAppointmentId := 3);
      && SlotsUnique(t.appointments)
      && ChangeStatus(t, 2, "Waiting").status == Ok
      && !SlotsUnique(ChangeStatus(t, 2, "Waiting").tables.appointments)
  {
    var kept := Appointment(1, 1, 1, "2024-05-01", "10:00:00", None, 0, Waiting, 0);
    var cancelled := Appointment(2, 2, 1, "2024-05-01", "10:00:00", None, 0, Cancelled, 0);
    var after := SetStatus([kept, cancelled], 2, Waiting);
    assert after[0] == kept;
    assert Holds(after[1], kept.doctorId, kept.date, kept.time);
  }
}
