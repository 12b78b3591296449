/** The second `createInvoice` handler: the same count, numbering,
    construction and save as `InvoiceCreation`, over the UTC range written
    out in full, answering 201 with the bare saved invoice or 500 with the
    error's own message. */
module InvoiceController {
  import opened Base
  import opened Calendar
  import opened InvoiceModel
  import opened InvoiceCreation

  datatype Body = InvoiceBody(invoice: Invoice) | MessageBody(message: string)

  datatype Reply = Reply(status: nat, body: Body)

  /** 201 with the invoice itself, or 500 with `{ message: error.message }`. */
  function Answer(o: Outcome): (r: Reply)
    ensures r.status == 201 <==> o.Created?
    ensures r.status == 500 <==> o.Failed?
    ensures o.Created? ==> r.body == InvoiceBody(o.invoice)
    ensures o.Failed? ==> r.body == MessageBody(Message(o.error))
  {
    match o
    case Created(inv) => Reply(201, InvoiceBody(inv))
    case Failed(e) => Reply(500, MessageBody(Message(e)))
  }

  /** The range `[year-01-01T00:00:00.000Z, year-12-31T23:59:59.999Z]`. */
  function RangeStart(year: int): int {
    UtcMillis(year, 1, 1, 0, 0, 0, 0)
  }

  function RangeEnd(year: int): int {
    UtcMillis(year, 12, 31, 23, 59, 59, 999)
  }

  /** The explicit range is the one the other handler counts over (its
      date-only start literal also denotes midnight UTC); consecutive years'
      ranges meet without gap or overlap, so every instant is counted in
      exactly one year. */
  lemma RangeIsYear(year: int, t: int)
    ensures RangeStart(year) == YearStart(year) && RangeEnd(year) == YearEnd(year)
    ensures RangeEnd(year) + 1 == RangeStart(year + 1)
    ensures RangeStart(year) <= t <= RangeEnd(year) && RangeStart(year + 1) <= t <= RangeEnd(year + 1) ==> false
  {
    YearEndMeetsNextStart(year);
    YearStartBeforeEnd(year + 1);
  }

  /** The handler; the parameters are those of `InvoiceCreation.CreateInvoice`. */
  method CreateInvoice(invoices: InvoiceCollection, year: nat, now: int, body: Document,
                       countFault: Option<string>, saveFault: Option<string>)
    returns (res: Reply)
    requires 1000 <= year <= 9999
    modifies invoices
    ensures var o := Handle(old(invoices.records), year, now, body, countFault, saveFault);
            res == Answer(o) && invoices.records == After(old(invoices.records), o)
    ensures res.status == 201 ==> invoices.records == old(invoices.records) + [res.body.invoice]
    ensures res.status != 201 ==> res.status == 500 && invoices.records == old(invoices.records)
  {
    var yearInvoicesCount := invoices.CountDocuments(RangeStart(year), RangeEnd(year), countFault);
    if yearInvoicesCount.Failure? {
      res := Reply(500, MessageBody(Message(yearInvoicesCount.error)));
      return;
    }
    var invoiceNumber := InvoiceNumber(year, yearInvoicesCount.value + 1);
    var invoice := Construct(invoiceNumber, body);
    var saved := invoices.Save(invoice, now, saveFault);
    if saved.Failure? {
      res := Reply(500, MessageBody(Message(saved.error)));
      return;
    }
    res := Reply(201, InvoiceBody(saved.value));
  }

  /** The two handlers store the same invoice and answer with the same
      status; they differ only in the shape of the reply body: the saved
      invoice bare or wrapped with a message, and the error's message bare
      or after a fixed message. */
  lemma HandlersAgree(o: Outcome)
    ensures Answer(o).status == Respond(o).status
    ensures o.Created? ==> Answer(o).body.invoice == Respond(o).body.invoice
                           && Respond(o).body.message == "Invoice created successfully"
    ensures o.Failed? ==> Answer(o).body.message == Respond(o).body.error
                          && Respond(o).body.message == "Error creating invoice"
  {
  }

  /** A store error reaches the client as its own message. */
  lemma StoreErrorReported(records: seq<Invoice>, year: nat, now: int, body: Document,
                           countFault: Option<string>, saveFault: Option<string>)
    requires countFault.Some? || (saveFault.Some? && Valid(Construct(NextNumber(records, year), body)))
    ensures var o := Handle(records, year, now, body, countFault, saveFault);
            && Answer(o) == Reply(500, MessageBody(if countFault.Some? then countFault.value else saveFault.value))
            && After(records, o) == records
  {
    var o := Handle(records, year, now, body, countFault, saveFault);
    if countFault.Some? {
      assert o == Failed(StoreFailure(countFault.value));
    } else {
      SaveFaultFails(records, year, now, body, saveFault.value);
    }
  }

  lemma SaveFaultFails(records: seq<Invoice>, year: nat, now: int, body: Document, fault: string)
    requires Valid(Construct(NextNumber(records, year), body))
    ensures Handle(records, year, now, body, None, Some(fault)) == Failed(StoreFailure(fault))
  {
  }

  /** A body lacking a required field is rejected before anything is
      stored, with the validation message. */
  lemma InvalidBodyRejected(records: seq<Invoice>, year: nat, now: int, body: Document,
                            saveFault: Option<string>)
    requires !FieldsValid(body)
    ensures var o := Handle(records, year, now, body, None, saveFault);
            var r := Answer(o);
            && r.status == 500 && After(records, o) == records
            && r.body.message[..27] == "Invoice validation failed: "
  {
    assert !Valid(Construct(NextNumber(records, year), body));
  }
}
