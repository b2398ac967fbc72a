/**
 * The payment and invoice rows the booking, consultation and payment
 * handlers insert.
 */
module Ledger {
  import opened Wrappers
  import opened Records
  import opened Billing
  import opened Database

  /** `INSERT INTO payments ...`: one row with the next payment id. */
  function WithPayment(t: Tables, appointmentId: Id, patientId: Id, doctorId: Id, amount: int,
                       date: string, paymentMethod: string, notes: Nullable, createdBy: Id): (r: Tables)
    ensures r.payments == t.payments + [Payment(t.nextPaymentId, appointmentId, patientId, doctorId,
                                                amount, date, paymentMethod, "Completed", notes, createdBy)]
    ensures r == t.(payments := r.payments, nextPaymentId := t.nextPaymentId + 1)
  {
    t.(payments := t.payments + [Payment(t.nextPaymentId, appointmentId, patientId, doctorId,
                                         amount, date, paymentMethod, "Completed", notes, createdBy)],
       nextPaymentId := t.nextPaymentId + 1)
  }

  /**
   * `SELECT COUNT(*) FROM invoices` then `INSERT INTO invoices ...`: the new
   * row is numbered from the count of rows already there.
   */
  function WithInvoice(t: Tables, appointmentId: Id, patientId: Id, doctorId: Id, amount: int,
                       date: string): (r: Tables)
    ensures r.invoices == t.invoices + [Invoice(t.nextInvoiceId, InvoiceNumber(|t.invoices| + 1),
                                                appointmentId, patientId, doctorId, amount, date, "Generated")]
    ensures r == t.(invoices := r.invoices, nextInvoiceId := t.nextInvoiceId + 1)
  {
    t.(invoices := t.invoices + [Invoice(t.nextInvoiceId, InvoiceNumber(|t.invoices| + 1),
                                         appointmentId, patientId, doctorId, amount, date, "Generated")],
       nextInvoiceId := t.nextInvoiceId + 1)
  }

  /** The payment insert on the live tables. */
  method InsertPayment(db: Clinic, appointmentId: Id, patientId: Id, doctorId: Id, amount: int,
                       date: string, paymentMethod: string, notes: Nullable, createdBy: Id)
    modifies db`payments, db`nextPaymentId
    ensures db.Snapshot() == WithPayment(old(db.Snapshot()), appointmentId, patientId, doctorId, amount,
                                         date, paymentMethod, notes, createdBy)
  {
    db.payments := db.payments + [Payment(db.nextPaymentId, appointmentId, patientId, doctorId,
                                          amount, date, paymentMethod, "Completed", notes, createdBy)];
    db.nextPaymentId := db.nextPaymentId + 1;
  }

  /** The invoice count and insert on the live tables. */
  method InsertInvoice(db: Clinic, appointmentId: Id, patientId: Id, doctorId: Id, amount: int, date: string)
    modifies db`invoices, db`nextInvoiceId
    ensures db.Snapshot() == WithInvoice(old(db.Snapshot()), appointmentId, patientId, doctorId, amount, date)
  {
    var after := WithInvoice(db.Snapshot(), appointmentId, patientId, doctorId, amount, date);
    db.invoices := after.invoices;
    db.nextInvoiceId := after.nextInvoiceId;
  }

  /** With no invoice ever deleted, every insert keeps the table numbered INV-000001, INV-000002, ... */
  lemma WithInvoiceKeepsNumbered(t: Tables, appointmentId: Id, patientId: Id, doctorId: Id,
                                 amount: int, date: string)
    requires InvoicesNumbered(t.invoices)
    ensures InvoicesNumbered(WithInvoice(t, appointmentId, patientId, doctorId, amount, date).invoices)
  {
    var inv := Invoice(t.nextInvoiceId, InvoiceNumber(|t.invoices| + 1),
                       appointmentId, patientId, doctorId, amount, date, "Generated");
    AppendKeepsNumbered(t.invoices, inv);
  }

  /** Inserting a payment or an invoice keeps every id below its counter. */
  lemma LedgerKeepsValid(t: Tables, appointmentId: Id, patientId: Id, doctorId: Id, amount: int,
                         date: string, paymentMethod: string, notes: Nullable, createdBy: Id)
    requires Valid(t)
    ensures Valid(WithPayment(t, appointmentId, patientId, doctorId, amount, date, paymentMethod, notes, createdBy))
    ensures Valid(WithInvoice(t, appointmentId, patientId, doctorId, amount, date))
  {
  }
}
