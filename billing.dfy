/**
 * Invoice numbering and the payment-amount fallback shared by the booking,
 * consultation and payment handlers
 * (src/controllers/appointment.controller.js, src/controllers/payment.controller.js).
 */
module Billing {
  import opened Wrappers
  import opened Text
  import opened Records

  /** `INV-` followed by the count padded with zeros to six digits (never truncated). */
  function InvoiceNumber(n: nat): string {
    "INV-" + PadStart(Decimal(n), 6, '0')
  }

  /** Reads the count back out of an invoice number. */
  function ParseInvoiceNumber(s: string): Option<int> {
    if StartsWith(s, "INV-") then ParseInt(s[4..]) else None
  }

  /** Invoice numbers encode their count: reading the number gives it back. */
  lemma InvoiceNumberRoundTrip(n: nat)
    ensures ParseInvoiceNumber(InvoiceNumber(n)) == Some(n)
  {
    var s := InvoiceNumber(n);
    assert s[..4] == "INV-";
    assert s[4..] == PadStart(Decimal(n), 6, '0');
    ParsePadded(n, 6);
  }

  /** Distinct counts give distinct invoice numbers. */
  lemma InvoiceNumberInjective(m: nat, n: nat)
    requires InvoiceNumber(m) == InvoiceNumber(n)
    ensures m == n
  {
    InvoiceNumberRoundTrip(m);
    InvoiceNumberRoundTrip(n);
  }

  /** Up to 999999 the number is exactly ten characters: `INV-` and six digits. */
  lemma InvoiceNumberShape(n: nat)
    requires n < 1000000
    ensures |InvoiceNumber(n)| == 10
    ensures StartsWith(InvoiceNumber(n), "INV-")
    ensures AllDigits(InvoiceNumber(n)[4..])
  {
    var s := InvoiceNumber(n);
    var d := Decimal(n);
    assert Pow10(6) == 1000000;
    DecimalLength(n, 6);
    var p := PadStart(d, 6, '0');
    assert s[..4] == "INV-";
    assert s[4..] == p;
    forall i | 0 <= i < |p| ensures IsDigit(p[i]) {
      if i >= |p| - |d| {
        assert p[i] == p[|p| - |d|..][i - (|p| - |d|)];
      }
    }
  }

  function Pow10(k: nat): nat {
    if k == 0 then 1 else 10 * Pow10(k - 1)
  }

  /** A number below 10^k has at most k decimal digits. */
  lemma {:induction false} DecimalLength(n: nat, k: nat)
    requires 1 <= k && n < Pow10(k)
    ensures |Decimal(n)| <= k
  {
    if n >= 10 {
      DecimalLength(n / 10, k - 1);
    }
  }

  /** The table of invoices numbers its rows INV-000001, INV-000002, ... in order. */
  predicate InvoicesNumbered(invoices: seq<Invoice>) {
    forall k :: 0 <= k < |invoices| ==> invoices[k].number == InvoiceNumber(k + 1)
  }

  /** In a numbered table the k-th row's number reads as k + 1, so numbers increase along the table. */
  lemma NumberedInvoiceReadsPosition(invoices: seq<Invoice>, k: nat)
    requires InvoicesNumbered(invoices)
    requires k < |invoices|
    ensures ParseInvoiceNumber(invoices[k].number) == Some(k + 1)
  {
    assert invoices[k].number == InvoiceNumber(k + 1);
    InvoiceNumberRoundTrip(k + 1);
  }

  /** A numbered table has pairwise distinct invoice numbers. */
  lemma NumberedInvoicesDistinct(invoices: seq<Invoice>, i: nat, j: nat)
    requires InvoicesNumbered(invoices)
    requires i < j < |invoices|
    ensures invoices[i].number != invoices[j].number
  {
    NumberedInvoiceReadsPosition(invoices, i);
    NumberedInvoiceReadsPosition(invoices, j);
  }

  /** Adding a row numbered from the row count keeps the numbering. */
  lemma AppendKeepsNumbered(invoices: seq<Invoice>, inv: Invoice)
    requires InvoicesNumbered(invoices)
    requires inv.number == InvoiceNumber(|invoices| + 1)
    ensures InvoicesNumbered(invoices + [inv])
  {
  }

  /** A request's payment amount: missing, present but not a number, or a number. */
  datatype AmountInput = Missing | NotANumber | Amount(value: int)

  /**
   * `parseFloat(amount) || parseFloat(fee) || 0`: the given amount unless it
   * is NaN or zero, then the fee (a NULL fee, stored as 0, gives 0).
   */
  function PaymentAmount(amount: AmountInput, fee: int): (r: int)
    ensures amount.Amount? && amount.value != 0 ==> r == amount.value
    ensures !(amount.Amount? && amount.value != 0) ==> r == fee
  {
    if amount.Amount? && amount.value != 0 then amount.value
    else if fee != 0 then fee
    else 0
  }
}
