/** Forwarding the low-value invoices to SAP
    (stubbing_external_service/src/main.rs). Each `Sap::send` call is
    recorded, in order, in the returned trace. */
module SapSender {
  import opened InvoiceFilter

  /** `send_low_valued_invoices`: one `send` per invoice the filter returns,
      in the order the filter returns them. */
  method SendLowValuedInvoices(repository: seq<Invoice>) returns (sent: seq<Invoice>)
    ensures sent == LowValueInvoices(repository)
  {
    var invoices := LowValueInvoices(repository);
    sent := [];
    var i := 0;
    while i < |invoices|
      invariant 0 <= i <= |invoices|
      invariant sent == invoices[..i]
    {
      sent := sent + [invoices[i]];
      i := i + 1;
    }
    assert invoices[..i] == invoices;
  }

  /** No invoice worth 100 or more is ever sent, and every low-value
      invoice of the repository is. */
  lemma SendsExactlyLowValue(repository: seq<Invoice>, sent: seq<Invoice>)
    requires sent == LowValueInvoices(repository)
    ensures forall inv :: inv in sent ==> IsLowValue(inv)
    ensures forall inv :: inv in repository && IsLowValue(inv) ==> inv in sent
  {
  }

  /** The test with a stubbed filter returning Mauricio (20) and Steve (99):
      running the sender on those two invoices sends both, Mauricio first.
      The filter keeps both, and the sender's contract makes the trace the
      filter's output. */
  method SendsBothExample() returns (sent: seq<Invoice>)
    ensures sent == [Invoice("Mauricio", 20), Invoice("Steve", 99)]
  {
    var mauricio, steve := Invoice("Mauricio", 20), Invoice("Steve", 99);
    FilterAppend([mauricio], [steve]);
    sent := SendLowValuedInvoices([mauricio, steve]);
  }
}
