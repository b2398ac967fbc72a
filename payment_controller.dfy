/**
 * src/controllers/payment.controller.js: recording a payment against an
 * appointment, generating an invoice numbered from the invoice count, and
 * the sync that creates the payments completed paid visits are missing.
 */
module PaymentController {
  import opened Wrappers
  import opened Records
  import opened Billing
  import opened Http
  import opened Database
  import opened Registry
  import opened Ledger
  import Text

  // ---------------------------------------------------------------------
  // recordPayment
  // ---------------------------------------------------------------------

  /**
   * `recordPayment`: 400 without an appointment id or with no amount at
   * all, 404 for an unknown appointment; otherwise one Completed payment
   * for the appointment's patient and doctor, dated the appointment's date,
   * of the given amount or else the fee, by the given method or else Cash.
   */
  function Record(t: Tables, appointmentId: Id, amount: AmountInput, paymentMethod: string, notes: string,
                  userId: Id): Outcome
  {
    if appointmentId == 0 || amount == Missing then Outcome(BadRequest, t)
    else
      match AppointmentById(t.appointments, appointmentId)
      case None => Outcome(NotFound, t)
      case Some(k) =>
        var apt := t.appointments[k];
        Outcome(Created, WithPayment(t, appointmentId, apt.patientId, apt.doctorId, PaymentAmount(amount, apt.fee),
                                     apt.date, OrDefault(paymentMethod, "Cash"), OrNull(notes), userId))
  }

  /** `recordPayment`: the handler, step by step. */
  method RecordPayment(db: Clinic, appointmentId: Id, amount: AmountInput, paymentMethod: string, notes: string,
                       userId: Id) returns (status: Status)
    modifies db`payments, db`nextPaymentId
    ensures Outcome(status, db.Snapshot()) == Record(old(db.Snapshot()), appointmentId, amount, paymentMethod, notes, userId)
  {
    if appointmentId == 0 || amount == Missing {
      return BadRequest;
    }
    var found := AppointmentById(db.appointments, appointmentId);
    if found.None? {
      return NotFound;
    }
    var apt := db.appointments[found.value];
    db.payments := db.payments + [Payment(db.nextPaymentId, appointmentId, apt.patientId, apt.doctorId,
                                          PaymentAmount(amount, apt.fee), apt.date, OrDefault(paymentMethod, "Cash"),
                                          "Completed", OrNull(notes), userId)];
    db.nextPaymentId := db.nextPaymentId + 1;
    return Created;
  }

  /**
   * The answers of `recordPayment`: 400 exactly without an id or an amount,
   * 404 exactly for an unknown appointment, both changing nothing; a 201
   * appends one payment for that appointment and changes nothing else.
   */
  lemma RecordCases(t: Tables, appointmentId: Id, amount: AmountInput, paymentMethod: string, notes: string, userId: Id)
    ensures var o := Record(t, appointmentId, amount, paymentMethod, notes, userId);
      && (o.status == BadRequest <==> appointmentId == 0 || amount == Missing)
      && (o.status == NotFound <==>
            appointmentId != 0 && amount != Missing
            && forall k :: 0 <= k < |t.appointments| ==> t.appointments[k].id != appointmentId)
      && (o.status != Created ==> o.tables == t)
      && (o.status == Created ==>
            && o.tables == t.(payments := o.tables.payments, nextPaymentId := t.nextPaymentId + 1)
            && |o.tables.payments| == |t.payments| + 1
            && o.tables.payments[..|t.payments|] == t.payments
            && var p := o.tables.payments[|t.payments|];
               && p.appointmentId == appointmentId && p.status == "Completed"
               && (paymentMethod == "" ==> p.paymentMethod == "Cash")
               && (paymentMethod != "" ==> p.paymentMethod == paymentMethod)
               && exists k :: 0 <= k < |t.appointments| && t.appointments[k].id == appointmentId
                              && p.date == t.appointments[k].date
                              && p.patientId == t.appointments[k].patientId
                              && p.amount == (if amount.Amount? && amount.value != 0 then amount.value else t.appointments[k].fee))
  {
    var o := Record(t, appointmentId, amount, paymentMethod, notes, userId);
    if o.status == Created {
      var k := AppointmentById(t.appointments, appointmentId).value;
      assert t.appointments[k].id == appointmentId;
      assert o.tables.payments[..|t.payments|] == t.payments;
    }
  }

  /** With no duplicate check, recording twice for one appointment leaves two new payments for it. */
  lemma RecordTwiceRecordsTwice(t: Tables, appointmentId: Id, amount: AmountInput, paymentMethod: string, notes: string,
                                userId: Id)
    requires Record(t, appointmentId, amount, paymentMethod, notes, userId).status == Created
    ensures var once := Record(t, appointmentId, amount, paymentMethod, notes, userId);
      var twice := Record(once.tables, appointmentId, amount, paymentMethod, notes, userId);
      && twice.status == Created
      && |twice.tables.payments| == |t.payments| + 2
      && twice.tables.payments[|t.payments|].appointmentId == appointmentId
      && twice.tables.payments[|t.payments| + 1].appointmentId == appointmentId
  {
  }

  // ---------------------------------------------------------------------
  // generateInvoice
  // ---------------------------------------------------------------------

  /** `FROM appointments a JOIN patients p ... JOIN doctors d ... WHERE a.id = ?`: the first joinable row. */
  function BillableAppointment(t: Tables, appointmentId: Id): Option<nat> {
    FirstWhere(t.appointments, (a: Appointment) =>
      a.id == appointmentId && PatientById(t.patients, a.patientId).Some? && DoctorById(t.doctors, a.doctorId).Some?)
  }

  /**
   * `generateInvoice`: 400 without an appointment id, 404 unless the
   * appointment's patient and doctor are on file; otherwise one invoice of
   * the fee, numbered from the count of invoices already there.
   */
  function Generate(t: Tables, appointmentId: Id): Outcome {
    if appointmentId == 0 then Outcome(BadRequest, t)
    else
      match BillableAppointment(t, appointmentId)
      case None => Outcome(NotFound, t)
      case Some(k) =>
        var apt := t.appointments[k];
        Outcome(Created, WithInvoice(t, appointmentId, apt.patientId, apt.doctorId, apt.fee, apt.date))
  }

  /** `generateInvoice`: the handler, step by step. */
  method GenerateInvoice(db: Clinic, appointmentId: Id) returns (status: Status)
    modifies db`invoices, db`nextInvoiceId
    ensures Outcome(status, db.Snapshot()) == Generate(old(db.Snapshot()), appointmentId)
  {
    if appointmentId == 0 {
      return BadRequest;
    }
    var found := BillableAppointment(db.Snapshot(), appointmentId);
    if found.None? {
      return NotFound;
    }
    var apt := db.appointments[found.value];
    InsertInvoice(db, appointmentId, apt.patientId, apt.doctorId, apt.fee, apt.date);
    return Created;
  }

  /**
   * `generateInvoice` refuses with 400 exactly without an id, and with 404
   * exactly when no appointment with the id has its patient and doctor on
   * file; a refusal changes nothing.
   */
  lemma GenerateRefusals(t: Tables, appointmentId: Id)
    ensures var o := Generate(t, appointmentId);
      && (o.status == BadRequest || o.status == NotFound || o.status == Created)
      && (o.status == BadRequest <==> appointmentId == 0)
      && (o.status == NotFound <==>
            appointmentId != 0
            && forall k :: 0 <= k < |t.appointments| && t.appointments[k].id == appointmentId ==>
                 (forall i :: 0 <= i < |t.patients| ==> t.patients[i].id != t.appointments[k].patientId)
                 || (forall i :: 0 <= i < |t.doctors| ==> t.doctors[i].id != t.appointments[k].doctorId))
      && (o.status != Created ==> o.tables == t)
  {
    if appointmentId != 0 {
      var found := BillableAppointment(t, appointmentId);
      if found.None? {
        forall k | 0 <= k < |t.appointments| && t.appointments[k].id == appointmentId
          ensures (forall i :: 0 <= i < |t.patients| ==> t.patients[i].id != t.appointments[k].patientId)
               || (forall i :: 0 <= i < |t.doctors| ==> t.doctors[i].id != t.appointments[k].doctorId)
        {
          assert !(PatientById(t.patients, t.appointments[k].patientId).Some? && DoctorById(t.doctors, t.appointments[k].doctorId).Some?);
        }
      } else {
        var a := t.appointments[found.value];
        var i := PatientById(t.patients, a.patientId).value;
        var j := DoctorById(t.doctors, a.doctorId).value;
        assert t.patients[i].id == a.patientId && t.doctors[j].id == a.doctorId;
      }
    }
  }

  /**
   * A generated invoice is appended for the appointment, of its fee and
   * dated its date, numbered one past the invoice count; nothing else
   * changes.
   */
  lemma GenerateAppends(t: Tables, appointmentId: Id)
    requires Generate(t, appointmentId).status == Created
    ensures var o := Generate(t, appointmentId);
      && o.tables == t.(invoices := o.tables.invoices, nextInvoiceId := t.nextInvoiceId + 1)
      && |o.tables.invoices| == |t.invoices| + 1
      && o.tables.invoices[..|t.invoices|] == t.invoices
      && var inv := o.tables.invoices[|t.invoices|];
         && inv.appointmentId == appointmentId
         && inv.number == InvoiceNumber(|t.invoices| + 1)
         && inv.status == "Generated"
         && exists k :: 0 <= k < |t.appointments| && t.appointments[k].id == appointmentId
                        && inv.amount == t.appointments[k].fee && inv.date == t.appointments[k].date
  {
    var o := Generate(t, appointmentId);
    var k := BillableAppointment(t, appointmentId).value;
    assert t.appointments[k].id == appointmentId;
    assert o.tables.invoices[..|t.invoices|] == t.invoices;
  }

  /** Generating an invoice keeps the table numbered INV-000001, INV-000002, ... in row order. */
  lemma GenerateKeepsNumbered(t: Tables, appointmentId: Id)
    requires InvoicesNumbered(t.invoices)
    ensures InvoicesNumbered(Generate(t, appointmentId).tables.invoices)
  {
    match BillableAppointment(t, appointmentId)
    case None =>
    case Some(k) =>
      var apt := t.appointments[k];
      WithInvoiceKeepsNumbered(t, appointmentId, apt.patientId, apt.doctorId, apt.fee, apt.date);
  }

  /**
   * With no check for an existing invoice, generating twice for one
   * appointment leaves two new invoices for it, with different numbers.
   */
  lemma GenerateTwiceGeneratesTwo(t: Tables, appointmentId: Id)
    requires InvoicesNumbered(t.invoices)
    requires Generate(t, appointmentId).status == Created
    ensures var once := Generate(t, appointmentId);
      var twice := Generate(once.tables, appointmentId);
      && twice.status == Created
      && |twice.tables.invoices| == |t.invoices| + 2
      && twice.tables.invoices[|t.invoices|].appointmentId == appointmentId
      && twice.tables.invoices[|t.invoices| + 1].appointmentId == appointmentId
      && twice.tables.invoices[|t.invoices|].number != twice.tables.invoices[|t.invoices| + 1].number
  {
    var once := Generate(t, appointmentId);
    GenerateKeepsNumbered(t, appointmentId);
    GenerateKeepsNumbered(once.tables, appointmentId);
    var twice := Generate(once.tables, appointmentId);
    NumberedInvoicesDistinct(twice.tables.invoices, |t.invoices|, |t.invoices| + 1);
  }

  // ---------------------------------------------------------------------
  // syncPaymentsFromAppointments
  // ---------------------------------------------------------------------

  /** An appointment the sync pays: a positive fee, Completed, and no payment referencing it. */
  predicate Unpaid(a: Appointment, payments: seq<Payment>) {
    a.fee > 0 && a.status == Completed && !Paid(payments, a.id)
  }

  /** The rows the sync's `SELECT` returns, in table order. */
  function SyncTargets(appointments: seq<Appointment>, payments: seq<Payment>): (r: seq<Appointment>)
    ensures |r| <= |appointments|
    ensures forall a :: a in r <==> a in appointments && Unpaid(a, payments)
  {
    if appointments == [] then []
    else
      var rest := SyncTargets(appointments[1..], payments);
      assert forall a :: a in appointments <==> a == appointments[0] || a in appointments[1..];
      if Unpaid(appointments[0], payments) then [appointments[0]] + rest else rest
  }

  /** The payments the sync inserts for `targets`, numbered from `nextId`. */
  function SyncRows(targets: seq<Appointment>, nextId: Id, userId: Id): (r: seq<Payment>)
    ensures |r| == |targets|
    ensures forall i :: 0 <= i < |r| ==>
      r[i] == Payment(nextId + i, targets[i].id, targets[i].patientId, targets[i].doctorId, targets[i].fee,
                      targets[i].date, "Cash", "Completed", None, userId)
  {
    if targets == [] then []
    else
      var n := |targets| - 1;
      SyncRows(targets[..n], nextId, userId)
        + [Payment(nextId + n, targets[n].id, targets[n].patientId, targets[n].doctorId, targets[n].fee,
                   targets[n].date, "Cash", "Completed", None, userId)]
  }

  /** The rows for one more target are the rows so far and that target's row. */
  lemma SyncRowsSnoc(targets: seq<Appointment>, k: nat, nextId: Id, userId: Id)
    requires k < |targets|
    ensures SyncRows(targets[..k + 1], nextId, userId)
         == SyncRows(targets[..k], nextId, userId)
              + [Payment(nextId + k, targets[k].id, targets[k].patientId, targets[k].doctorId, targets[k].fee,
                         targets[k].date, "Cash", "Completed", None, userId)]
  {
    assert targets[..k + 1][..k] == targets[..k];
  }

  /** What the sync answers with: how many payments it created, and the tables after. */
  datatype SyncResult = SyncResult(synced: nat, tables: Tables)

  /** `syncPaymentsFromAppointments` as a function of the tables before the request. */
  function Sync(t: Tables, userId: Id): SyncResult {
    var targets := SyncTargets(t.appointments, t.payments);
    SyncResult(|targets|, t.(payments := t.payments + SyncRows(targets, t.nextPaymentId, userId),
                             nextPaymentId := t.nextPaymentId + |targets|))
  }

  /** `syncPaymentsFromAppointments`: one insert per selected row, counting them. */
  method SyncPayments(db: Clinic, userId: Id) returns (synced: nat)
    modifies db`payments, db`nextPaymentId
    ensures SyncResult(synced, db.Snapshot()) == Sync(old(db.Snapshot()), userId)
  {
    ghost var before := db.Snapshot();
    var targets := SyncTargets(db.appointments, db.payments);
    var payments, nextId := db.payments, db.nextPaymentId;
    synced := 0;
    while synced < |targets|
      invariant synced <= |targets|
      invariant payments == before.payments + SyncRows(targets[..synced], before.nextPaymentId, userId)
      invariant nextId == before.nextPaymentId + synced
    {
      var apt := targets[synced];
      var row := Payment(nextId, apt.id, apt.patientId, apt.doctorId, apt.fee, apt.date, "Cash", "Completed", None, userId);
      SyncRowsSnoc(targets, synced, before.nextPaymentId, userId);
      Text.AppendAssoc(before.payments, SyncRows(targets[..synced], before.nextPaymentId, userId), [row]);
      payments, nextId := payments + [row], nextId + 1;
      synced := synced + 1;
    }
    assert targets[..synced] == targets;
    db.payments, db.nextPaymentId := payments, nextId;
    assert db.Snapshot() == before.(payments := payments, nextPaymentId := nextId);
  }

  /**
   * The sync keeps every existing payment, leaves every other table alone,
   * and reports how many payments it added.
   */
  lemma SyncAppends(t: Tables, userId: Id)
    ensures var r := Sync(t, userId);
      && r.tables == t.(payments := r.tables.payments, nextPaymentId := t.nextPaymentId + r.synced)
      && r.tables.payments[..|t.payments|] == t.payments
      && r.synced == |r.tables.payments| - |t.payments|
  {
    var r := Sync(t, userId);
    assert r.tables.payments[..|t.payments|] == t.payments;
  }

  /** The sync adds exactly one Cash payment of the fee, dated its date, per unpaid completed appointment. */
  lemma SyncPaysTargets(t: Tables, userId: Id)
    ensures var r := Sync(t, userId);
      var targets := SyncTargets(t.appointments, t.payments);
      && r.synced == |targets|
      && (forall i :: 0 <= i < |targets| ==>
            var p := r.tables.payments[|t.payments| + i];
            && Unpaid(targets[i], t.payments)
            && p.appointmentId == targets[i].id && p.amount == targets[i].fee && p.date == targets[i].date
            && p.paymentMethod == "Cash" && p.status == "Completed")
  {
    var r := Sync(t, userId);
    var targets := SyncTargets(t.appointments, t.payments);
    var rows := SyncRows(targets, t.nextPaymentId, userId);
    forall i | 0 <= i < |targets|
      ensures Unpaid(targets[i], t.payments)
      ensures r.tables.payments[|t.payments| + i] == rows[i]
    {
      assert targets[i] in targets;
    }
  }

  /** After a sync every completed appointment with a positive fee is paid. */
  lemma SyncPaysAll(t: Tables, userId: Id)
    ensures forall a :: a in t.appointments && a.fee > 0 && a.status == Completed ==>
      Paid(Sync(t, userId).tables.payments, a.id)
  {
    var r := Sync(t, userId);
    var targets := SyncTargets(t.appointments, t.payments);
    var rows := SyncRows(targets, t.nextPaymentId, userId);
    forall a | a in t.appointments && a.fee > 0 && a.status == Completed
      ensures Paid(r.tables.payments, a.id)
    {
      if Paid(t.payments, a.id) {
        var k := PaymentFor(t.payments, a.id).value;
        assert r.tables.payments[k] == t.payments[k];
      } else {
        assert a in targets;
        var i :| 0 <= i < |targets| && targets[i] == a;
        assert r.tables.payments[|t.payments| + i] == rows[i];
      }
    }
  }

  /** With nothing unpaid, the sync selects nothing. */
  lemma {:induction false} NothingUnpaid(appointments: seq<Appointment>, payments: seq<Payment>)
    requires forall k :: 0 <= k < |appointments| ==> !Unpaid(appointments[k], payments)
    ensures SyncTargets(appointments, payments) == []
  {
    if appointments != [] {
      NothingUnpaid(appointments[1..], payments);
    }
  }

  /** Right after a sync, a second sync finds nothing to pay and changes nothing. */
  lemma SyncTwiceFindsNothing(t: Tables, userId1: Id, userId2: Id)
    ensures var once := Sync(t, userId1);
      var twice := Sync(once.tables, userId2);
      && twice.synced == 0
      && twice.tables == once.tables
  {
    var once := Sync(t, userId1);
    SyncAppends(t, userId1);
    SyncPaysAll(t, userId1);
    forall k | 0 <= k < |once.tables.appointments|
      ensures !Unpaid(once.tables.appointments[k], once.tables.payments)
    {
      assert once.tables.appointments[k] in t.appointments;
    }
    NothingUnpaid(once.tables.appointments, once.tables.payments);
    assert once.tables.payments + [] == once.tables.payments;
  }

  /** Recording a payment, and generating an invoice, keep every id below its counter. */
  lemma RecordKeepsValid(t: Tables, appointmentId: Id, amount: AmountInput, paymentMethod: string, notes: string,
                         userId: Id)
    requires Valid(t)
    ensures Valid(Record(t, appointmentId, amount, paymentMethod, notes, userId).tables)
  {
    if Record(t, appointmentId, amount, paymentMethod, notes, userId).status == Created {
      var apt := t.appointments[AppointmentById(t.appointments, appointmentId).value];
      LedgerKeepsValid(t, appointmentId, apt.patientId, apt.doctorId, PaymentAmount(amount, apt.fee),
                       apt.date, OrDefault(paymentMethod, "Cash"), OrNull(notes), userId);
    }
  }

  lemma GenerateKeepsValid(t: Tables, appointmentId: Id)
    requires Valid(t)
    ensures Valid(Generate(t, appointmentId).tables)
  {
    if Generate(t, appointmentId).status == Created {
      var apt := t.appointments[BillableAppointment(t, appointmentId).value];
      LedgerKeepsValid(t, appointmentId, apt.patientId, apt.doctorId, apt.fee, apt.date, "Cash", None, 0);
    }
  }

  /** The sync numbers its payments from the counter, so it keeps every id below it. */
  lemma SyncKeepsValid(t: Tables, userId: Id)
    requires Valid(t)
    ensures Valid(Sync(t, userId).tables)
  {
    var r := Sync(t, userId);
    var rows := SyncRows(SyncTargets(t.appointments, t.payments), t.nextPaymentId, userId);
    forall k | 0 <= k < |r.tables.payments|
      ensures 1 <= r.tables.payments[k].id < r.tables.nextPaymentId
    {
      if k >= |t.payments| {
        assert r.tables.payments[k] == rows[k - |t.payments|];
      }
    }
  }
}
