/** The `POST /api/invoices` handler: it counts the invoices created in the
    current year, numbers the new invoice `INV-<year>-<count + 1, padded to
    four digits>`, builds the document with the request body spread over
    the generated number, saves it and answers 201, or 500 on any error. */
module InvoiceCreation {
  import opened Base
  import opened Text
  import opened Calendar
  import opened InvoiceModel

  /** `INV-${year}-${String(sequence).padStart(4, '0')}`. */
  function InvoiceNumber(year: nat, sequence: nat): string {
    "INV-" + NatToString(year) + "-" + PadStart(NatToString(sequence), 4, '0')
  }

  /** The first index of `c` in `s`. */
  function IndexOf(s: string, c: char): (k: Option<nat>)
    ensures k.Some? ==> k.value < |s| && s[k.value] == c && c !in s[..k.value]
    ensures k.None? ==> c !in s
  {
    if s == [] then None
    else if s[0] == c then Some(0)
    else
      var k := IndexOf(s[1..], c);
      if k.None? then None
      else
        assert s[..k.value + 1] == [s[0]] + s[1..][..k.value];
        Some(k.value + 1)
  }

  /** The first occurrence is found. */
  lemma {:induction false} IndexOfFirst(s: string, c: char, j: nat)
    requires j < |s| && s[j] == c && c !in s[..j]
    ensures IndexOf(s, c) == Some(j)
  {
    if j > 0 {
      assert s[0] == s[..j][0];
      assert s[1..][..j - 1] == s[..j][1..];
      IndexOfFirst(s[1..], c, j - 1);
    }
  }

  /** Reads an invoice number back into its year and sequence number. */
  function DecodeInvoiceNumber(s: string): Option<(nat, nat)> {
    if |s| < 4 || s[..4] != "INV-" then None
    else
      var rest := s[4..];
      var dash := IndexOf(rest, '-');
      if dash.None? then None
      else
        var year := rest[..dash.value];
        var sequence := rest[dash.value + 1..];
        if year == [] || sequence == [] || !AllDigits(year) || !AllDigits(sequence) then None
        else Some((DigitsValue(year), DigitsValue(sequence)))
  }

  /** Padding with zeros prepends zeros. */
  lemma PadStartZeros(s: string)
    ensures |s| >= 4 ==> PadStart(s, 4, '0') == s
    ensures |s| < 4 ==> PadStart(s, 4, '0') == Repeat('0', 4 - |s|) + s
  {
    if |s| < 4 {
      var r := PadStart(s, 4, '0');
      assert r == r[..4 - |s|] + r[4 - |s|..];
      assert r[..4 - |s|] == Repeat('0', 4 - |s|);
    }
  }

  /** An invoice number determines its year and its sequence number: the
      generated string decodes back to both. */
  lemma InvoiceNumberDecodes(year: nat, sequence: nat)
    ensures DecodeInvoiceNumber(InvoiceNumber(year, sequence)) == Some((year, sequence))
  {
    var y := NatToString(year);
    var p := PadStart(NatToString(sequence), 4, '0');
    PaddedSequence(sequence);
    DigitsValueOfNatToString(year);
    DecodeParts(y, p);
  }

  /** The padded sequence part is a digit string worth the sequence
      number. */
  lemma PaddedSequence(sequence: nat)
    ensures var p := PadStart(NatToString(sequence), 4, '0');
            p != [] && AllDigits(p) && DigitsValue(p) == sequence
  {
    var q := NatToString(sequence);
    PadStartZeros(q);
    DigitsValueOfNatToString(sequence);
    if |q| < 4 {
      DigitsValueLeadingZeros(4 - |q|, q);
    }
  }

  /** `INV-`, a digit string, a dash and a digit string decode to the two
      digit strings' values. */
  lemma DecodeParts(y: string, p: string)
    requires y != [] && p != [] && AllDigits(y) && AllDigits(p)
    ensures DecodeInvoiceNumber("INV-" + y + "-" + p) == Some((DigitsValue(y), DigitsValue(p)))
  {
    PrefixSlices(y, p);
    DashAfterDigits(y, p);
  }

  lemma PrefixSlices(y: string, p: string)
    ensures var s := "INV-" + y + "-" + p;
            |s| >= 4 && s[..4] == "INV-" && s[4..] == y + "-" + p
  {
    var s := "INV-" + y + "-" + p;
    assert s[..4] == "INV-";
    assert s[4..] == y + "-" + p;
  }

  /** The first dash after a digit string is the one that follows it. */
  lemma DashAfterDigits(y: string, p: string)
    requires AllDigits(y)
    ensures var rest := y + "-" + p;
            IndexOf(rest, '-') == Some(|y|) && rest[..|y|] == y && rest[|y| + 1..] == p
  {
    var rest := y + "-" + p;
    assert '-' !in y by {
      forall i | 0 <= i < |y| ensures y[i] != '-' {
        assert IsDigit(y[i]);
      }
    }
    assert rest[..|y|] == y;
    IndexOfFirst(rest, '-', |y|);
    assert rest[|y| + 1..] == p;
  }

  /** Distinct (year, sequence) pairs give distinct invoice numbers. */
  lemma InvoiceNumberInjective(y1: nat, n1: nat, y2: nat, n2: nat)
    requires InvoiceNumber(y1, n1) == InvoiceNumber(y2, n2)
    ensures y1 == y2 && n1 == n2
  {
    InvoiceNumberDecodes(y1, n1);
    InvoiceNumberDecodes(y2, n2);
  }

  /** Within one year, distinct sequence numbers give distinct invoice
      numbers. */
  lemma InvoiceNumberDistinct(year: nat, a: nat, b: nat)
    requires a != b
    ensures InvoiceNumber(year, a) != InvoiceNumber(year, b)
  {
    InvoiceNumberDecodes(year, a);
    InvoiceNumberDecodes(year, b);
  }

  /** The sequence part is at least four characters and ends with the
      sequence number's own digits: below 10000 it is exactly four digits,
      from 10000 on it is the number as is, never cut. */
  lemma SequenceWidth(year: nat, sequence: nat)
    ensures var s := InvoiceNumber(year, sequence);
            var q := NatToString(sequence);
            && |s| == 5 + |NatToString(year)| + (if |q| >= 4 then |q| else 4)
            && s[|s| - |q|..] == q
    ensures sequence < 10000 <==> |NatToString(sequence)| <= 4
  {
    var q := NatToString(sequence);
    var p := PadStart(q, 4, '0');
    var s := InvoiceNumber(year, sequence);
    var head := "INV-" + NatToString(year) + "-";
    assert s == head + p;
    assert s[|s| - |q|..] == p[|p| - |q|..];
    NatToStringLength(sequence);
  }

  lemma {:induction false} NatToStringLength(n: nat)
    ensures n < 10000 <==> |NatToString(n)| <= 4
    ensures n < 1000 <==> |NatToString(n)| <= 3
    ensures n < 100 <==> |NatToString(n)| <= 2
  {
    if n >= 10 {
      NatToStringLength(n / 10);
    }
  }

  /** The first invoice of 2025 is numbered `INV-2025-0001`, the ten
      thousandth `INV-2025-10000`. */
  lemma InvoiceNumberExamples()
    ensures InvoiceNumber(2025, 1) == "INV-2025-0001"
    ensures InvoiceNumber(2025, 10000) == "INV-2025-10000"
  {
    FirstNumberOf2025();
    TenThousandthNumberOf2025();
  }

  lemma FirstNumberOf2025()
    ensures InvoiceNumber(2025, 1) == "INV-2025-0001"
  {
    assert NatToString(2025) == "2025";
    assert NatToString(1) == "1";
  }

  lemma TenThousandthNumberOf2025()
    ensures InvoiceNumber(2025, 10000) == "INV-2025-10000"
  {
    assert NatToString(2025) == "2025";
    assert NatToString(10000) == "10000";
  }

  /** `{ invoiceNumber, ...req.body }`: every field comes from the body,
      and the generated number is kept only when the body leaves the field
      out; a `null` in the body overwrites it. */
  function Construct(number: string, body: Document): (doc: Document)
    ensures body.invoiceNumber.Missing? ==> doc.invoiceNumber == Given(number)
    ensures !body.invoiceNumber.Missing? ==> doc.invoiceNumber == body.invoiceNumber
    ensures doc.(invoiceNumber := body.invoiceNumber) == body
  {
    if body.invoiceNumber.Missing? then body.(invoiceNumber := Given(number)) else body
  }

  /** What one handler run does to the collection. */
  datatype Outcome = Created(invoice: Invoice) | Failed(error: Failure)

  /** The invoices created during `year` (UTC), as the count query bounds
      them. */
  function YearCount(records: seq<Invoice>, year: int): nat {
    CountCreatedIn(records, YearStart(year), YearEnd(year))
  }

  /** The number the handler generates for the next invoice of `year`. */
  function NextNumber(records: seq<Invoice>, year: nat): string {
    InvoiceNumber(year, YearCount(records, year) + 1)
  }

  /** One run of the handler against the stored `records`: the count,
      then the construction, then the save. */
  function Handle(records: seq<Invoice>, year: nat, now: int, body: Document,
                  countFault: Option<string>, saveFault: Option<string>): Outcome
  {
    if countFault.Some? then Failed(StoreFailure(countFault.value))
    else
      var saved := SaveResult(Construct(NextNumber(records, year), body), now, saveFault);
      if saved.Success? then Created(saved.value) else Failed(saved.error)
  }

  /** The collection after a run. */
  function After(records: seq<Invoice>, o: Outcome): seq<Invoice> {
    if o.Created? then records + [o.invoice] else records
  }

  datatype ResponseBody =
    | CreatedBody(message: string, invoice: Invoice)
    | ErrorBody(message: string, error: string)

  datatype Response = Response(status: nat, body: ResponseBody)

  /** The reply: 201 with the saved invoice wrapped in a message, or 500
      with a fixed message and the error. */
  function Respond(o: Outcome): (r: Response)
    ensures r.status == 201 <==> o.Created?
    ensures r.status == 500 <==> o.Failed?
    ensures o.Created? ==> r.body == CreatedBody("Invoice created successfully", o.invoice)
    ensures o.Failed? ==> r.body == ErrorBody("Error creating invoice", Message(o.error))
  {
    match o
    case Created(inv) => Response(201, CreatedBody("Invoice created successfully", inv))
    case Failed(e) => Response(500, ErrorBody("Error creating invoice", Message(e)))
  }

  /** The handler. `year` is the clock's current year and `now` the
      instant of the save; `countFault` and `saveFault` are the store
      errors, if any, that the two collection calls throw. */
  method CreateInvoice(invoices: InvoiceCollection, year: nat, now: int, body: Document,
                       countFault: Option<string>, saveFault: Option<string>)
    returns (res: Response)
    requires 1000 <= year <= 9999
    modifies invoices
    ensures var o := Handle(old(invoices.records), year, now, body, countFault, saveFault);
            res == Respond(o) && invoices.records == After(old(invoices.records), o)
    ensures res.status == 201 ==> invoices.records == old(invoices.records) + [res.body.invoice]
    ensures res.status != 201 ==> res.status == 500 && invoices.records == old(invoices.records)
  {
    var count := invoices.CountDocuments(YearStart(year), YearEnd(year), countFault);
    if count.Failure? {
      res := Response(500, ErrorBody("Error creating invoice", Message(count.error)));
      return;
    }
    var invoiceNumber := InvoiceNumber(year, count.value + 1);
    var invoice := Construct(invoiceNumber, body);
    var saved := invoices.Save(invoice, now, saveFault);
    if saved.Failure? {
      res := Response(500, ErrorBody("Error creating invoice", Message(saved.error)));
      return;
    }
    res := Response(201, CreatedBody("Invoice created successfully", saved.value));
  }

  /** Without a number in the body, a run succeeds exactly when both store
      calls succeed and the body's other required fields are present; the
      saved invoice then carries the next number of the year and the
      body's fields, and is created at `now`. */
  lemma GeneratedNumber(records: seq<Invoice>, year: nat, now: int, body: Document,
                        countFault: Option<string>, saveFault: Option<string>)
    requires body.invoiceNumber.Missing?
    ensures var o := Handle(records, year, now, body, countFault, saveFault);
            o.Created? <==> countFault.None? && saveFault.None? && FieldsValid(body)
    ensures var o := Handle(records, year, now, body, countFault, saveFault);
            o.Created? ==>
              && o.invoice.fields.invoiceNumber == Given(InvoiceNumber(year, YearCount(records, year) + 1))
              && o.invoice.fields == body.(invoiceNumber := o.invoice.fields.invoiceNumber,
                                           date := o.invoice.fields.date)
              && o.invoice.createdAt == now
  {
    var doc := Construct(NextNumber(records, year), body);
    assert RequiredString(Known(doc.invoiceNumber)) by {
      assert |NextNumber(records, year)| > 0;
    }
  }

  /** A number in the request body replaces the generated one. */
  lemma BodyNumberOverrides(records: seq<Invoice>, year: nat, now: int, body: Document, number: string)
    requires body.invoiceNumber == Given(number) && number != "" && FieldsValid(body)
    ensures var o := Handle(records, year, now, body, None, None);
            o.Created? && o.invoice.fields.invoiceNumber == Given(number)
  {
  }

  /** A body whose `invoiceNumber` is `null` overwrites the generated
      number with `null`, which the required validator rejects: nothing is
      stored and the reply is 500 naming the invoice number. */
  lemma NullNumberRejected(records: seq<Invoice>, year: nat, now: int, body: Document,
                           saveFault: Option<string>)
    requires body.invoiceNumber.Null?
    ensures var o := Handle(records, year, now, body, None, saveFault);
            && o == Failed(ValidationFailure(Validate(Construct(NextNumber(records, year), body))))
            && Validate(Construct(NextNumber(records, year), body))[0] == TopPath("invoiceNumber")
            && After(records, o) == records && Respond(o).status == 500
  {
  }

  /** Any thrown error leaves the collection as it was and is answered
      with 500 and the fixed message. */
  lemma FailureLeavesCollection(records: seq<Invoice>, year: nat, now: int, body: Document,
                                countFault: Option<string>, saveFault: Option<string>)
    requires countFault.Some? || saveFault.Some?
    ensures var o := Handle(records, year, now, body, countFault, saveFault);
            After(records, o) == records && Respond(o).status == 500
            && Respond(o).body.message == "Error creating invoice"
  {
  }

  /** Invoices created outside the year's UTC range do not change the
      number the next invoice of that year receives. */
  lemma OtherYearsIgnored(records: seq<Invoice>, others: seq<Invoice>, year: nat)
    requires forall i :: 0 <= i < |others| ==> !CreatedIn(others[i], YearStart(year), YearEnd(year))
    ensures NextNumber(records + others, year) == NextNumber(records, year)
  {
    CountConcat(records, others, YearStart(year), YearEnd(year));
    CountBounds(others, YearStart(year), YearEnd(year));
  }

  /** With no invoice yet in the year, the next number is `INV-<year>-0001`. */
  lemma FirstOfYear(records: seq<Invoice>, year: nat)
    requires 1000 <= year <= 9999
    requires forall i :: 0 <= i < |records| ==> !CreatedIn(records[i], YearStart(year), YearEnd(year))
    ensures NextNumber(records, year) == "INV-" + NatToString(year) + "-0001"
  {
    CountBounds(records, YearStart(year), YearEnd(year));
    assert NatToString(1) == "1";
  }

  /** Successive successful runs in one year with the same body. */
  function CreateAll(records: seq<Invoice>, year: nat, nows: seq<int>, body: Document): seq<Invoice>
  {
    if nows == [] then records
    else
      var before := CreateAll(records, year, nows[..|nows| - 1], body);
      After(before, Handle(before, year, nows[|nows| - 1], body, None, None))
  }

  /** One successful run in the year appends an invoice numbered after the
      year's count, and the count grows by one. */
  lemma CreateStep(before: seq<Invoice>, year: nat, now: int, body: Document)
    requires body.invoiceNumber.Missing? && FieldsValid(body)
    requires YearStart(year) <= now <= YearEnd(year)
    ensures var o := Handle(before, year, now, body, None, None);
            && o.Created? && After(before, o) == before + [o.invoice]
            && o.invoice.fields.invoiceNumber == Given(InvoiceNumber(year, YearCount(before, year) + 1))
            && YearCount(After(before, o), year) == YearCount(before, year) + 1
  {
    GeneratedNumber(before, year, now, body, None, None);
    var o := Handle(before, year, now, body, None, None);
    CountConcat(before, [o.invoice], YearStart(year), YearEnd(year));
    assert CountCreatedIn([o.invoice], YearStart(year), YearEnd(year)) == 1 by {
      assert [o.invoice][..0] == [];
    }
  }

  /** Every instant lies in the UTC range of `year`. */
  predicate InYear(nows: seq<int>, year: nat) {
    forall i :: 0 <= i < |nows| ==> YearStart(year) <= nows[i] <= YearEnd(year)
  }

  /** The invoices from position `offset` on carry the numbers `c + 1`,
      `c + 2`, ... of `year`. */
  predicate NumberedFrom(all: seq<Invoice>, offset: nat, year: nat, c: nat) {
    forall i :: offset <= i < |all| ==>
      all[i].fields.invoiceNumber == Given(InvoiceNumber(year, c + (i - offset) + 1))
  }

  /** No two invoices from position `offset` on carry the same number. */
  predicate DistinctFrom(all: seq<Invoice>, offset: nat) {
    forall i, j :: offset <= i < j < |all| ==>
      all[i].fields.invoiceNumber != all[j].fields.invoiceNumber
  }

  /** `all` is `records` followed by `added` new invoices of `year`, which
      raise the year's count by `added` and are numbered consecutively
      after the count `records` had. */
  predicate ContinuesFrom(records: seq<Invoice>, all: seq<Invoice>, year: nat, added: nat) {
    && |all| == |records| + added && all[..|records|] == records
    && YearCount(all, year) == YearCount(records, year) + added
    && NumberedFrom(all, |records|, year, YearCount(records, year))
  }

  /** Runs whose instants all fall in the year's UTC range, with a body
      that carries no number and has its other required fields, number the
      new invoices consecutively after those already created in the year:
      starting from an empty year they receive 1, 2, ..., N, and no number
      is handed out twice. */
  lemma SequentialNumbers(records: seq<Invoice>, year: nat, nows: seq<int>, body: Document)
    requires body.invoiceNumber.Missing? && FieldsValid(body) && InYear(nows, year)
    ensures ContinuesFrom(records, CreateAll(records, year, nows, body), year, |nows|)
    ensures DistinctFrom(CreateAll(records, year, nows, body), |records|)
  {
    CreateAllNumbers(records, year, nows, body);
    NumbersDistinct(CreateAll(records, year, nows, body), |records|, year, YearCount(records, year));
  }

  lemma {:induction false} CreateAllNumbers(records: seq<Invoice>, year: nat, nows: seq<int>, body: Document)
    requires body.invoiceNumber.Missing? && FieldsValid(body) && InYear(nows, year)
    ensures ContinuesFrom(records, CreateAll(records, year, nows, body), year, |nows|)
    decreases |nows|
  {
    if nows == [] {
      assert records[..|records|] == records;
    } else {
      var prefix := nows[..|nows| - 1];
      var now := nows[|nows| - 1];
      InYearPrefix(nows, year);
      CreateAllNumbers(records, year, prefix, body);
      var before := CreateAll(records, year, prefix, body);
      CreateStep(before, year, now, body);
      var o := Handle(before, year, now, body, None, None);
      ContinuesExtend(records, before, o.invoice, year, |prefix|);
    }
  }

  lemma InYearPrefix(nows: seq<int>, year: nat)
    requires nows != [] && InYear(nows, year)
    ensures InYear(nows[..|nows| - 1], year)
    ensures YearStart(year) <= nows[|nows| - 1] <= YearEnd(year)
  {
  }

  /** Appending the next numbered invoice of the year continues the
      sequence. */
  lemma ContinuesExtend(records: seq<Invoice>, before: seq<Invoice>, inv: Invoice, year: nat, k: nat)
    requires ContinuesFrom(records, before, year, k)
    requires inv.fields.invoiceNumber == Given(InvoiceNumber(year, YearCount(before, year) + 1))
    requires YearCount(before + [inv], year) == YearCount(before, year) + 1
    ensures ContinuesFrom(records, before + [inv], year, k + 1)
  {
    var c := YearCount(records, year);
    assert |before| == |records| + k && YearCount(before, year) == c + k;
    assert (before + [inv])[..|records|] == records by {
      assert (before + [inv])[..|records|] == before[..|records|];
    }
    NumberedExtend(before, inv, |records|, year, c);
  }

  lemma NumberedExtend(before: seq<Invoice>, inv: Invoice, offset: nat, year: nat, c: nat)
    requires offset <= |before| && NumberedFrom(before, offset, year, c)
    requires inv.fields.invoiceNumber == Given(InvoiceNumber(year, c + (|before| - offset) + 1))
    ensures NumberedFrom(before + [inv], offset, year, c)
  {
    var all := before + [inv];
    forall i | offset <= i < |all|
      ensures all[i].fields.invoiceNumber == Given(InvoiceNumber(year, c + (i - offset) + 1))
    {
      if i < |before| {
        assert all[i] == before[i];
      }
    }
  }

  /** Invoices numbered consecutively from position `offset` on carry
      pairwise distinct numbers. */
  lemma NumbersDistinct(all: seq<Invoice>, offset: nat, year: nat, c: nat)
    requires offset <= |all| && NumberedFrom(all, offset, year, c)
    ensures DistinctFrom(all, offset)
  {
    forall i, j | offset <= i < j < |all|
      ensures all[i].fields.invoiceNumber != all[j].fields.invoiceNumber
    {
      var a := c + (i - offset) + 1;
      var b := c + (j - offset) + 1;
      assert all[i].fields.invoiceNumber == Given(InvoiceNumber(year, a));
      assert all[j].fields.invoiceNumber == Given(InvoiceNumber(year, b));
      InvoiceNumberDistinct(year, a, b);
    }
  }

  /** The collection accepts a second invoice with a number already in use:
      nothing in the schema makes the number unique. */
  lemma DuplicateNumberAccepted(records: seq<Invoice>, year: nat, now: int, body: Document, i: nat)
    requires i < |records| && records[i].fields.invoiceNumber == body.invoiceNumber
    requires Valid(body)
    ensures var o := Handle(records, year, now, body, None, None);
            var all := After(records, o);
            o.Created? && all[i].fields.invoiceNumber == all[|records|].fields.invoiceNumber
  {
  }

  /** When the clock's year and the save instant disagree, so that the
      invoice just saved falls outside the year's UTC range (the year is
      read in local time, the range is UTC), the next run generates the
      same number again. */
  lemma ClockYearMismatchRepeatsNumber(records: seq<Invoice>, year: nat, now: int, later: int, body: Document)
    requires body.invoiceNumber.Missing? && FieldsValid(body)
    requires !(YearStart(year) <= now <= YearEnd(year))
    ensures var first := Handle(records, year, now, body, None, None);
            var second := Handle(After(records, first), year, later, body, None, None);
            && first.Created? && second.Created?
            && first.invoice.fields.invoiceNumber == second.invoice.fields.invoiceNumber
  {
    GeneratedNumber(records, year, now, body, None, None);
    var first := Handle(records, year, now, body, None, None);
    OtherYearsIgnored(records, [first.invoice], year);
    GeneratedNumber(After(records, first), year, later, body, None, None);
  }
}
